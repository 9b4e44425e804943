/** What BSE2's `Orderbook_half.build_lob` derives from the live orders: the
    level list `lob` (best price first, each level's entries sorted) and the
    anonymised `lob_anon`, both as functions of the `orders` dict. */
module Bse2Lob {
  import opened Basics
  import opened PriceLevels
  import opened Bse2Types

  // ---- Python's ordering of the entry lists [time, qty, tid, orderid] ----

  /** Python's `<` on strings: code point by code point, a proper prefix
      first. */
  predicate StrLess(a: string, b: string) {
    if a == [] then b != []
    else if b == [] then false
    else a[0] < b[0] || (a[0] == b[0] && StrLess(a[1..], b[1..]))
  }

  lemma {:induction false} StrLessTotal(a: string, b: string)
    ensures a == b || StrLess(a, b) || StrLess(b, a)
  {
    if a != [] && b != [] && a[0] == b[0] {
      StrLessTotal(a[1..], b[1..]);
      assert a == [a[0]] + a[1..];
      assert b == [b[0]] + b[1..];
    }
  }

  /** Python's `<=` on two entry lists: lexicographic on arrival time,
      quantity, trader id and order id. */
  predicate EntryLe(a: LobEntry, b: LobEntry) {
    a.time < b.time
    || (a.time == b.time
        && (a.qty < b.qty
            || (a.qty == b.qty && (StrLess(a.tid, b.tid) || (a.tid == b.tid && a.id <= b.id)))))
  }

  lemma EntryLeTotal(a: LobEntry, b: LobEntry)
    ensures EntryLe(a, b) || EntryLe(b, a)
  {
    StrLessTotal(a.tid, b.tid);
  }

  /** Each entry is at most its successor: the order `list.sort()` leaves. */
  ghost predicate EntriesSorted(s: seq<LobEntry>) {
    forall i :: 0 <= i < |s| - 1 ==> EntryLe(s[i], s[i + 1])
  }

  function InsertEntry(x: LobEntry, s: seq<LobEntry>): (r: seq<LobEntry>)
    ensures multiset(r) == multiset(s) + multiset{x}
    ensures |r| == |s| + 1
    ensures r[0] == x || (s != [] && r[0] == s[0])
  {
    if s == [] || EntryLe(x, s[0]) then [x] + s
    else
      assert s == [s[0]] + s[1..];
      [s[0]] + InsertEntry(x, s[1..])
  }

  lemma {:induction false} InsertEntrySorted(x: LobEntry, s: seq<LobEntry>)
    requires EntriesSorted(s)
    ensures EntriesSorted(InsertEntry(x, s))
  {
    if s != [] && !EntryLe(x, s[0]) {
      EntryLeTotal(x, s[0]);
      var t := InsertEntry(x, s[1..]);
      assert EntriesSorted(s[1..]);
      InsertEntrySorted(x, s[1..]);
      assert |s| > 1 ==> EntryLe(s[0], s[1]);
      var r := [s[0]] + t;
      forall i | 0 <= i < |r| - 1 ensures EntryLe(r[i], r[i + 1]) {
        if i > 0 {
          assert r[i] == t[i - 1] && r[i + 1] == t[i];
        }
      }
    }
  }

  /** `orderlist.sort()`: the same entries, in Python's list order. */
  function SortEntries(s: seq<LobEntry>): (r: seq<LobEntry>)
    ensures multiset(r) == multiset(s)
    ensures EntriesSorted(r)
  {
    if s == [] then []
    else
      assert s == [s[0]] + s[1..];
      InsertEntrySorted(s[0], SortEntries(s[1..]));
      InsertEntry(s[0], SortEntries(s[1..]))
  }

  /** Within a sorted level, arrival times never decrease. */
  lemma {:induction false} SortedByArrival(s: seq<LobEntry>, i: int, j: int)
    requires EntriesSorted(s) && 0 <= i <= j < |s|
    ensures s[i].time <= s[j].time
  {
    if i < j {
      SortedByArrival(s, i, j - 1);
    }
  }

  lemma {:induction false} SumQtyCons(x: LobEntry, s: seq<LobEntry>)
    ensures SumQty([x] + s) == x.qty + SumQty(s)
  {
    if s != [] {
      var init := s[..|s| - 1];
      SumQtyCons(x, init);
      assert ([x] + s)[..|s|] == [x] + init;
    }
  }

  lemma {:induction false} SumQtyAppend(a: seq<LobEntry>, b: seq<LobEntry>)
    ensures SumQty(a + b) == SumQty(a) + SumQty(b)
  {
    if b != [] {
      SumQtyAppend(a, b[..|b| - 1]);
      assert (a + b)[..|a + b| - 1] == a + b[..|b| - 1];
    } else {
      assert a + b == a;
    }
  }

  lemma {:induction false} SumQtyInsert(x: LobEntry, s: seq<LobEntry>)
    ensures SumQty(InsertEntry(x, s)) == x.qty + SumQty(s)
  {
    if s == [] || EntryLe(x, s[0]) {
      SumQtyCons(x, s);
    } else {
      SumQtyInsert(x, s[1..]);
      SumQtyCons(s[0], InsertEntry(x, s[1..]));
      SumQtyCons(s[0], s[1..]);
      assert s == [s[0]] + s[1..];
    }
  }

  /** Sorting a level keeps its total quantity. */
  lemma {:induction false} SumQtySorted(s: seq<LobEntry>)
    ensures SumQty(SortEntries(s)) == SumQty(s)
  {
    if s != [] {
      SumQtySorted(s[1..]);
      SumQtyInsert(s[0], SortEntries(s[1..]));
      SumQtyCons(s[0], s[1..]);
      assert s == [s[0]] + s[1..];
    }
  }

  // ---- prices in book order ----

  function Reverse<T>(s: seq<T>): (r: seq<T>)
    ensures |r| == |s|
    ensures forall i :: 0 <= i < |s| ==> r[i] == s[|s| - 1 - i]
  {
    if s == [] then [] else Reverse(s[1..]) + [s[0]]
  }

  /** `sorted(keys)` for asks and `sorted(keys, reverse=True)` for bids; on
      distinct keys the reversed sort is the ascending sort backwards. */
  function SortedPrices(side: Side, keys: seq<int>): seq<int> {
    if side == Bid then Reverse(SortAsc(keys)) else SortAsc(keys)
  }

  /** Every price is strictly better than the ones after it. */
  ghost predicate BestFirst(side: Side, ps: seq<int>) {
    forall i, j :: 0 <= i < j < |ps| ==> side.AtLeast(ps[i], ps[j]) && ps[i] != ps[j]
  }

  lemma AscendingBestFirst(asc: seq<int>)
    requires StrictlyAscending(asc)
    ensures BestFirst(Ask, asc)
  {
  }

  lemma ReversedBestFirst(asc: seq<int>)
    requires StrictlyAscending(asc)
    ensures BestFirst(Bid, Reverse(asc))
    ensures forall p :: p in Reverse(asc) <==> p in asc
  {
    var r := Reverse(asc);
    forall i, j | 0 <= i < j < |r| ensures Bid.AtLeast(r[i], r[j]) && r[i] != r[j] {
      assert r[i] == asc[|asc| - 1 - i] && r[j] == asc[|asc| - 1 - j];
    }
    forall p | p in asc ensures p in r {
      var i :| 0 <= i < |asc| && asc[i] == p;
      assert r[|asc| - 1 - i] == p;
    }
  }

  lemma SortedPricesBestFirst(side: Side, keys: seq<int>)
    requires Distinct(keys)
    ensures BestFirst(side, SortedPrices(side, keys))
    ensures forall p :: p in SortedPrices(side, keys) <==> p in keys
    ensures |SortedPrices(side, keys)| == |keys|
  {
    var asc := SortAsc(keys);
    SortedKeysStrict(keys);
    SortedKeysSame(keys);
    assert |multiset(asc)| == |multiset(keys)|;
    if side == Bid {
      ReversedBestFirst(asc);
    } else {
      AscendingBestFirst(asc);
    }
  }

  // ---- the rows build_lob visits ----

  function EntryOf(o: Order): LobEntry {
    LobEntry(o.time, o.qty, o.tid, o.orderid)
  }

  /** The orders under keys `ks`, in that order, as (price, entry) rows. */
  function RowsOver(ks: seq<int>, m: map<int, Order>): (r: seq<Row>)
    requires forall i :: 0 <= i < |ks| ==> ks[i] in m
    ensures |r| == |ks|
    ensures forall i :: 0 <= i < |ks| ==> r[i] == (m[ks[i]].price, EntryOf(m[ks[i]]))
  {
    if ks == [] then [] else RowsOver(ks[..|ks| - 1], m) + [(m[ks[|ks| - 1]].price, EntryOf(m[ks[|ks| - 1]]))]
  }

  /** The rows of the live orders in dict order. */
  function RowsOf(d: Dict<int, Order>): seq<Row>
    requires Wf(d)
  {
    RowsOver(d.keys, d.vals)
  }

  function Entries(rows: seq<Row>): (es: seq<LobEntry>)
    ensures |es| == |rows|
    ensures forall i :: 0 <= i < |rows| ==> es[i] == rows[i].1
  {
    if rows == [] then [] else Entries(rows[..|rows| - 1]) + [rows[|rows| - 1].1]
  }

  /** Every order is filed under its own order id, as `book_add` does. */
  ghost predicate KeyedById(d: Dict<int, Order>) {
    forall k :: k in d.vals ==> d.vals[k].orderid == k
  }

  // ---- the derived lists ----

  /** One level of `self.lob`: [price, sorted entries]. */
  type LobRow = (int, seq<LobEntry>)

  function LevelEntries(g: Dict<int, Level>, p: int): seq<LobEntry> {
    match Get(g, p)
    case Some(l) => l.entries
    case None => []
  }

  function LevelsAt(g: Dict<int, Level>, ps: seq<int>): (r: seq<LobRow>)
    ensures |r| == |ps|
    ensures forall i :: 0 <= i < |ps| ==> r[i] == (ps[i], SortEntries(LevelEntries(g, ps[i])))
  {
    if ps == [] then [] else [(ps[0], SortEntries(LevelEntries(g, ps[0])))] + LevelsAt(g, ps[1..])
  }

  /** `self.lob` after `build_lob`: one [price, entries] level per distinct
      price, best price first, each level's entries sorted. Python sorts the
      levels after listing them; with distinct prices that is the list in
      sorted-price order. */
  function LobOf(side: Side, orders: Dict<int, Order>): seq<LobRow>
    requires Wf(orders)
  {
    var g := Group(RowsOf(orders));
    LevelsAt(g, SortedPrices(side, g.keys))
  }

  /** `self.lob_anon` after `build_lob`: [price, total quantity] per level,
      best price first. */
  function AnonOf(side: Side, orders: Dict<int, Order>): seq<(int, int)>
    requires Wf(orders)
  {
    var g := Group(RowsOf(orders));
    Project(g, SortedPrices(side, g.keys))
  }

  /** All entries of a level list, level by level. */
  function Flat(lob: seq<LobRow>): seq<LobEntry> {
    if lob == [] then [] else lob[0].1 + Flat(lob[1..])
  }

  /** The live orders' entries in dict order. */
  function BookEntries(d: Dict<int, Order>): seq<LobEntry>
    requires Wf(d)
  {
    Entries(RowsOf(d))
  }

  /** The side's total resting quantity. */
  function BookQty(d: Dict<int, Order>): int
    requires Wf(d)
  {
    SumQty(BookEntries(d))
  }

  /** The level list holds exactly the live orders' entries, each once, in
      non-empty levels; every order is filed under its id. */
  ghost predicate Mirror(orders: Dict<int, Order>, lob: seq<LobRow>) {
    Wf(orders) && KeyedById(orders)
    && (forall i :: 0 <= i < |lob| ==> lob[i].1 != [])
    && multiset(Flat(lob)) == multiset(BookEntries(orders))
  }

  // ---- deleting or rewriting one order ----

  lemma {:induction false} RemoveKeyAt(s: seq<int>, i: int)
    requires Distinct(s) && 0 <= i < |s|
    ensures RemoveKey(s, s[i]) == s[..i] + s[i + 1..]
  {
    DistinctTail(s);
    if i == 0 {
      assert s[0] !in s[1..];
      assert s[..0] + s[1..] == s[1..];
    } else {
      assert s[0] != s[i] && s[i] == s[1..][i - 1];
      RemoveKeyAt(s[1..], i - 1);
      ConsSplice(s, i);
    }
  }

  /** Putting the head back in front of the tail with position i - 1
      taken out gives the list with position i taken out. */
  lemma ConsSplice(s: seq<int>, i: int)
    requires 0 < i < |s|
    ensures [s[0]] + (s[1..][..i - 1] + s[1..][i..]) == s[..i] + s[i + 1..]
  {
    assert s[1..][..i - 1] + s[1..][i..] == s[1..i] + s[i + 1..];
    assert [s[0]] + (s[1..i] + s[i + 1..]) == s[..i] + s[i + 1..];
  }

  /** The position of key `k` in the dict's key list. */
  lemma KeyPosition(d: Dict<int, Order>, k: int) returns (i: int)
    requires Wf(d) && k in d.vals
    ensures 0 <= i < |d.keys| && d.keys[i] == k
    ensures BookEntries(d)[i] == EntryOf(d.vals[k])
  {
    i :| 0 <= i < |d.keys| && d.keys[i] == k;
  }

  lemma SumQtySingle(x: LobEntry)
    ensures SumQty([x]) == x.qty
  {
    assert [x][..0] == [];
  }

  /** Taking out, or replacing, the entry at position i changes the total
      by exactly that entry's quantity. */
  lemma SumQtyAt(es: seq<LobEntry>, i: int, x: LobEntry)
    requires 0 <= i < |es|
    ensures SumQty(es[..i] + es[i + 1..]) == SumQty(es) - es[i].qty
    ensures SumQty(es[..i] + [x] + es[i + 1..]) == SumQty(es) - es[i].qty + x.qty
  {
    var a, b := es[..i], es[i + 1..];
    assert es == a + [es[i]] + b;
    SumQtySplice(a, es[i], b);
    SumQtySplice(a, x, b);
    SumQtyAppend(a, b);
  }

  lemma SumQtySplice(a: seq<LobEntry>, x: LobEntry, b: seq<LobEntry>)
    ensures SumQty(a + [x] + b) == SumQty(a) + x.qty + SumQty(b)
  {
    SumQtyAppend(a + [x], b);
    SumQtyAppend(a, [x]);
    SumQtySingle(x);
  }

  lemma MultisetAt(es: seq<LobEntry>, i: int, x: LobEntry)
    requires 0 <= i < |es|
    ensures multiset(es[..i] + es[i + 1..]) == multiset(es) - multiset{es[i]}
    ensures multiset(es[..i] + [x] + es[i + 1..]) == multiset(es) - multiset{es[i]} + multiset{x}
  {
    assert es == es[..i] + [es[i]] + es[i + 1..];
  }

  lemma EntryAt(d: Dict<int, Order>, j: int)
    requires Wf(d) && 0 <= j < |d.keys|
    ensures |BookEntries(d)| == |d.keys|
    ensures BookEntries(d)[j] == EntryOf(d.vals[d.keys[j]])
  {
  }

  lemma SkipAt<T>(s: seq<T>, i: int, j: int)
    requires 0 <= i < |s| && 0 <= j < |s| - 1
    ensures (s[..i] + s[i + 1..])[j] == if j < i then s[j] else s[j + 1]
  {
  }

  /** b is a with position i taken out, stated index by index. */
  ghost predicate Skips<T>(a: seq<T>, b: seq<T>, i: int) {
    0 <= i < |a| && |b| == |a| - 1
    && forall j {:trigger b[j]} :: 0 <= j < |b| ==> b[j] == a[Past(i, j)]
  }

  /** The position in the longer list of position j of the shorter. */
  function Past(i: int, j: int): int {
    if j < i then j else j + 1
  }

  lemma SkipsSplit<T>(a: seq<T>, b: seq<T>, i: int)
    requires 0 <= i < |a|
    ensures Skips(a, b, i) <==> b == a[..i] + a[i + 1..]
  {
    if Skips(a, b, i) {
      forall j | 0 <= j < |b| ensures b[j] == (a[..i] + a[i + 1..])[j] {
        SkipAt(a, i, j);
        assert b[j] == a[Past(i, j)];
      }
    }
  }

  /** The entries of a dict, position by position. */
  lemma EntriesByKey(d: Dict<int, Order>)
    requires Wf(d)
    ensures |BookEntries(d)| == |d.keys|
    ensures forall j :: 0 <= j < |d.keys| ==> d.keys[j] in d.vals && BookEntries(d)[j] == EntryOf(d.vals[d.keys[j]])
  {
  }

  /** Lists read off key lists position by position skip where the keys
      skip, when the shorter dict agrees with the longer on its keys. */
  lemma SkipByKeys(ks: seq<int>, ks': seq<int>, m: map<int, Order>, m': map<int, Order>,
                   es: seq<LobEntry>, es': seq<LobEntry>, i: int)
    requires Skips(ks, ks', i)
    requires |es| == |ks| && forall j :: 0 <= j < |ks| ==> ks[j] in m && es[j] == EntryOf(m[ks[j]])
    requires |es'| == |ks'| && forall j :: 0 <= j < |ks'| ==> ks'[j] in m' && es'[j] == EntryOf(m'[ks'[j]])
    requires forall k :: k in m' ==> k in m && m'[k] == m[k]
    ensures Skips(es, es', i)
  {
    forall j | 0 <= j < |es'| ensures es'[j] == es[Past(i, j)] {
      assert ks'[j] == ks[Past(i, j)];
    }
  }

  lemma SkipSplit(d: Dict<int, Order>, r: Dict<int, Order>, i: int)
    requires Wf(d) && Wf(r) && Skips(d.keys, r.keys, i)
    requires forall k :: k in r.vals ==> k in d.vals && r.vals[k] == d.vals[k]
    ensures Skips(BookEntries(d), BookEntries(r), i)
  {
    EntriesByKey(d);
    EntriesByKey(r);
    SkipByKeys(d.keys, r.keys, d.vals, r.vals, BookEntries(d), BookEntries(r), i);
  }

  lemma RemovedSplit(d: Dict<int, Order>, k: int, i: int)
    requires Wf(d) && 0 <= i < |d.keys| && d.keys[i] == k
    ensures Wf(Remove(d, k))
    ensures BookEntries(Remove(d, k)) == BookEntries(d)[..i] + BookEntries(d)[i + 1..]
  {
    var r := Remove(d, k);
    RemoveKeyAt(d.keys, i);
    SkipsSplit(d.keys, r.keys, i);
    SkipSplit(d, r, i);
    SkipsSplit(BookEntries(d), BookEntries(r), i);
  }

  /** b is a with position i replaced by x, stated index by index. */
  ghost predicate Swaps<T>(a: seq<T>, b: seq<T>, i: int, x: T) {
    0 <= i < |a| && |b| == |a|
    && forall j {:trigger b[j]} :: 0 <= j < |b| ==> b[j] == if j == i then x else a[j]
  }

  lemma SwapsSplit<T>(a: seq<T>, b: seq<T>, i: int, x: T)
    requires Swaps(a, b, i, x)
    ensures b == a[..i] + [x] + a[i + 1..]
  {
    forall j | 0 <= j < |b| ensures b[j] == (a[..i] + [x] + a[i + 1..])[j] {
      assert b[j] == if j == i then x else a[j];
    }
  }

  lemma UpdatedEntry(d: Dict<int, Order>, k: int, i: int, o: Order, j: int)
    requires Wf(d) && 0 <= i < |d.keys| && d.keys[i] == k && 0 <= j < |d.keys|
    ensures Wf(Put(d, k, o)) && |BookEntries(Put(d, k, o))| == |d.keys|
    ensures BookEntries(Put(d, k, o))[j] == if j == i then EntryOf(o) else BookEntries(d)[j]
  {
    var r := Put(d, k, o);
    assert r.keys == d.keys;
    EntryAt(r, j);
    EntryAt(d, j);
  }

  lemma UpdatedSplit(d: Dict<int, Order>, k: int, i: int, o: Order)
    requires Wf(d) && 0 <= i < |d.keys| && d.keys[i] == k
    ensures Wf(Put(d, k, o))
    ensures BookEntries(Put(d, k, o)) == BookEntries(d)[..i] + [EntryOf(o)] + BookEntries(d)[i + 1..]
  {
    EntryAt(d, i);
    UpdatedEntry(d, k, i, o, i);
    forall j | 0 <= j < |d.keys|
      ensures BookEntries(Put(d, k, o))[j] == if j == i then EntryOf(o) else BookEntries(d)[j]
    {
      UpdatedEntry(d, k, i, o, j);
    }
    SwapsSplit(BookEntries(d), BookEntries(Put(d, k, o)), i, EntryOf(o));
  }

  /** `del orders[k]` takes exactly k's entry, and its quantity, off the
      side. */
  lemma RemovedEntries(d: Dict<int, Order>, k: int)
    requires Wf(d) && k in d.vals
    ensures Wf(Remove(d, k))
    ensures multiset(BookEntries(Remove(d, k))) == multiset(BookEntries(d)) - multiset{EntryOf(d.vals[k])}
    ensures BookQty(Remove(d, k)) == BookQty(d) - d.vals[k].qty
  {
    var i := KeyPosition(d, k);
    var es := BookEntries(d);
    RemovedSplit(d, k, i);
    SumQtyAt(es, i, es[i]);
    MultisetAt(es, i, es[i]);
  }

  /** `orders[k].qty = q` swaps k's entry for the rewritten one in place. */
  lemma UpdatedEntries(d: Dict<int, Order>, k: int, o: Order)
    requires Wf(d) && k in d.vals
    ensures Wf(Put(d, k, o))
    ensures multiset(BookEntries(Put(d, k, o)))
            == multiset(BookEntries(d)) - multiset{EntryOf(d.vals[k])} + multiset{EntryOf(o)}
    ensures BookQty(Put(d, k, o)) == BookQty(d) - d.vals[k].qty + o.qty
  {
    var i := KeyPosition(d, k);
    var es := BookEntries(d);
    UpdatedSplit(d, k, i, o);
    SumQtyAt(es, i, EntryOf(o));
    MultisetAt(es, i, EntryOf(o));
  }

  // ---- build_lob's results ----

  lemma {:induction false} LevelEntriesAt(rows: seq<Row>, p: int)
    ensures LevelEntries(Group(rows), p) == EntriesAt(rows, p)
    ensures p in Group(rows).vals <==> EntriesAt(rows, p) != []
  {
    GroupAt(rows, p);
  }

  /** The level list runs best price first with no price twice; the
      anonymised list has the same prices in the same order, each with the
      total quantity of its level; every level is non-empty and sorted and
      holds exactly the live orders at its price. */
  lemma BuiltLevels(side: Side, orders: Dict<int, Order>)
    requires Wf(orders)
    ensures var lob := LobOf(side, orders);
            var anon := AnonOf(side, orders);
            |anon| == |lob|
            && BestFirst(side, Prices(anon))
            && (forall i :: 0 <= i < |lob| ==> anon[i] == (lob[i].0, SumQty(lob[i].1)))
            && (forall i :: 0 <= i < |lob| ==> lob[i].1 != [] && EntriesSorted(lob[i].1))
            && (forall i :: 0 <= i < |lob| ==> multiset(lob[i].1) == multiset(EntriesAt(RowsOf(orders), lob[i].0)))
  {
    var rows := RowsOf(orders);
    var g := Group(rows);
    var ps := SortedPrices(side, g.keys);
    GroupWf(rows);
    SortedPricesBestFirst(side, g.keys);
    var lob := LobOf(side, orders);
    var anon := AnonOf(side, orders);
    assert Prices(anon) == ps;
    forall i | 0 <= i < |lob|
      ensures anon[i] == (lob[i].0, SumQty(lob[i].1))
      ensures lob[i].1 != [] && EntriesSorted(lob[i].1)
      ensures multiset(lob[i].1) == multiset(EntriesAt(rows, lob[i].0))
    {
      var p := ps[i];
      assert p in g.keys;
      LevelEntriesAt(rows, p);
      GroupAt(rows, p);
      SumQtySorted(EntriesAt(rows, p));
      assert |multiset(lob[i].1)| == |EntriesAt(rows, p)|;
    }
  }

  lemma AnonPrices(side: Side, orders: Dict<int, Order>)
    requires Wf(orders)
    ensures Prices(AnonOf(side, orders)) == SortedPrices(side, Group(RowsOf(orders)).keys)
  {
  }

  /** Some row is priced `p` exactly when some live order is. */
  lemma RowPriceLive(orders: Dict<int, Order>, p: int)
    requires Wf(orders)
    ensures EntriesAt(RowsOf(orders), p) != [] <==> exists k :: k in orders.vals && orders.vals[k].price == p
  {
    var rows := RowsOf(orders);
    if EntriesAt(rows, p) != [] {
      var e := EntriesAt(rows, p)[0];
      EntriesAtPrice(rows, p, e);
      var i :| 0 <= i < |rows| && rows[i] == (p, e);
      var k := orders.keys[i];
      assert k in orders.vals && orders.vals[k].price == p;
    } else {
      forall k | k in orders.vals ensures orders.vals[k].price != p {
        var i :| 0 <= i < |orders.keys| && orders.keys[i] == k;
        assert rows[i] == (orders.vals[k].price, EntryOf(orders.vals[k]));
        EntriesAtPrice(rows, p, EntryOf(orders.vals[k]));
      }
    }
  }

  /** A level exists exactly at the prices of live orders. */
  lemma BuiltPrices(side: Side, orders: Dict<int, Order>, p: int)
    requires Wf(orders)
    ensures p in Prices(AnonOf(side, orders)) <==> exists k :: k in orders.vals && orders.vals[k].price == p
  {
    var rows := RowsOf(orders);
    var g := Group(rows);
    GroupWf(rows);
    SortedPricesBestFirst(side, g.keys);
    AnonPrices(side, orders);
    LevelEntriesAt(rows, p);
    RowPriceLive(orders, p);
  }

  // ---- the level list mirrors the orders ----

  /** The entries of the rows whose price is among `ps`, in row order. */
  function Select(rows: seq<Row>, ps: seq<int>): seq<LobEntry> {
    if rows == [] then []
    else Select(rows[..|rows| - 1], ps) + (if rows[|rows| - 1].0 in ps then [rows[|rows| - 1].1] else [])
  }

  lemma {:induction false} SelectCons(rows: seq<Row>, p: int, ps: seq<int>)
    requires p !in ps
    ensures multiset(Select(rows, [p] + ps)) == multiset(EntriesAt(rows, p)) + multiset(Select(rows, ps))
  {
    if rows != [] {
      SelectCons(rows[..|rows| - 1], p, ps);
    }
  }

  lemma {:induction false} SelectAll(rows: seq<Row>, ps: seq<int>)
    requires forall i :: 0 <= i < |rows| ==> rows[i].0 in ps
    ensures Select(rows, ps) == Entries(rows)
  {
    if rows != [] {
      SelectAll(rows[..|rows| - 1], ps);
    }
  }

  lemma DistinctTail(ps: seq<int>)
    requires Distinct(ps) && ps != []
    ensures Distinct(ps[1..]) && ps[0] !in ps[1..]
  {
    forall i, j | 0 <= i < j < |ps| - 1 ensures ps[1..][i] != ps[1..][j] {
      assert ps[1..][i] == ps[i + 1] && ps[1..][j] == ps[j + 1];
    }
  }

  /** The first level's entries, then the rest's. */
  lemma FlatLevelsHead(rows: seq<Row>, ps: seq<int>)
    requires ps != []
    ensures multiset(Flat(LevelsAt(Group(rows), ps)))
            == multiset(EntriesAt(rows, ps[0])) + multiset(Flat(LevelsAt(Group(rows), ps[1..])))
  {
    var g := Group(rows);
    var lob := LevelsAt(g, ps);
    var head := SortEntries(LevelEntries(g, ps[0]));
    assert lob == [(ps[0], head)] + LevelsAt(g, ps[1..]);
    assert Flat(lob) == head + Flat(LevelsAt(g, ps[1..]));
    LevelEntriesAt(rows, ps[0]);
  }

  lemma {:induction false} FlatLevels(rows: seq<Row>, ps: seq<int>)
    requires Distinct(ps)
    ensures multiset(Flat(LevelsAt(Group(rows), ps))) == multiset(Select(rows, ps))
  {
    if ps != [] {
      FlatLevelsHead(rows, ps);
      DistinctTail(ps);
      FlatLevels(rows, ps[1..]);
      assert ps == [ps[0]] + ps[1..];
      SelectCons(rows, ps[0], ps[1..]);
    } else {
      SelectNone(rows);
    }
  }


  lemma {:induction false} SelectNone(rows: seq<Row>)
    ensures Select(rows, []) == []
  {
    if rows != [] {
      SelectNone(rows[..|rows| - 1]);
    }
  }

  /** `build_lob` files every live order's entry exactly once, in a
      non-empty level. */
  lemma BuiltMirrors(side: Side, orders: Dict<int, Order>)
    requires Wf(orders) && KeyedById(orders)
    ensures Mirror(orders, LobOf(side, orders))
  {
    var rows := RowsOf(orders);
    var g := Group(rows);
    var ps := SortedPrices(side, g.keys);
    GroupWf(rows);
    SortedPricesBestFirst(side, g.keys);
    BuiltLevels(side, orders);
    assert Distinct(ps);
    FlatLevels(rows, ps);
    forall i | 0 <= i < |rows| ensures rows[i].0 in ps {
      EntriesAtPrice(rows, rows[i].0, rows[i].1);
      LevelEntriesAt(rows, rows[i].0);
    }
    SelectAll(rows, ps);
  }

  // ---- best_price ----

  /** `best_price` as `build_lob` records it: the last anonymised price for
      bids, the first for asks; None on an empty side. */
  function BestAsWritten(side: Side, anon: seq<(int, int)>): Option<int> {
    if anon == [] then None
    else if side == Bid then Some(anon[|anon| - 1].0)
    else Some(anon[0].0)
  }

  lemma AnonBestFirst(side: Side, orders: Dict<int, Order>)
    requires Wf(orders)
    ensures BestFirst(side, Prices(AnonOf(side, orders)))
  {
    var rows := RowsOf(orders);
    GroupWf(rows);
    SortedPricesBestFirst(side, Group(rows).keys);
    AnonPrices(side, orders);
  }

  /** The bid side lists its highest price first, so the recorded bid
      `best_price` is the lowest live bid: with two bid prices it is not the
      best one. */
  lemma BestAsWrittenIsWorstBid(orders: Dict<int, Order>)
    requires Wf(orders) && |AnonOf(Bid, orders)| >= 2
    ensures var anon := AnonOf(Bid, orders);
            BestAsWritten(Bid, anon).value < anon[0].0
            && forall i :: 0 <= i < |anon| ==> BestAsWritten(Bid, anon).value <= anon[i].0
  {
    var anon := AnonOf(Bid, orders);
    AnonBestFirst(Bid, orders);
    LastBidLowest(anon);
  }

  lemma LastBidLowest(anon: seq<(int, int)>)
    requires |anon| >= 2 && BestFirst(Bid, Prices(anon))
    ensures BestAsWritten(Bid, anon).value < anon[0].0
    ensures forall i :: 0 <= i < |anon| ==> BestAsWritten(Bid, anon).value <= anon[i].0
  {
    var ps := Prices(anon);
    var last := |anon| - 1;
    forall i | 0 <= i < |anon| ensures anon[last].0 <= anon[i].0 && (i == 0 ==> anon[last].0 < anon[i].0) {
      if i < last {
        assert Bid.AtLeast(ps[i], ps[last]) && ps[i] != ps[last];
      }
    }
  }

  /** The recorded ask `best_price` is the lowest live ask. */
  lemma BestAskIsLowest(orders: Dict<int, Order>)
    requires Wf(orders) && AnonOf(Ask, orders) != []
    ensures var anon := AnonOf(Ask, orders);
            forall i :: 0 <= i < |anon| ==> BestAsWritten(Ask, anon).value <= anon[i].0
  {
    AnonBestFirst(Ask, orders);
    FirstAskLowest(AnonOf(Ask, orders));
  }

  lemma FirstAskLowest(anon: seq<(int, int)>)
    requires anon != [] && BestFirst(Ask, Prices(anon))
    ensures forall i :: 0 <= i < |anon| ==> BestAsWritten(Ask, anon).value <= anon[i].0
  {
    var ps := Prices(anon);
    forall i | 0 <= i < |anon| ensures anon[0].0 <= anon[i].0 {
      if i > 0 {
        assert Ask.AtLeast(ps[0], ps[i]);
      }
    }
  }

  // ---- price-time priority ----

  /** What build_lob guarantees of a level list over `rows`, stated without
      reference to how it was built: prices strictly best first, levels
      non-empty and sorted, each level holding exactly the rows at its
      price, and a level for every price some row has. */
  ghost predicate Ranked(side: Side, rows: seq<Row>, lob: seq<LobRow>) {
    (forall i, j :: 0 <= i < j < |lob| ==> side.AtLeast(lob[i].0, lob[j].0) && lob[i].0 != lob[j].0)
    && (forall i :: 0 <= i < |lob| ==> lob[i].1 != [] && EntriesSorted(lob[i].1))
    && (forall i :: 0 <= i < |lob| ==> multiset(lob[i].1) == multiset(EntriesAt(rows, lob[i].0)))
    && (forall p :: EntriesAt(rows, p) != [] ==> exists i :: 0 <= i < |lob| && lob[i].0 == p)
  }

  lemma RankedLevels(side: Side, rows: seq<Row>, anon: seq<(int, int)>, lob: seq<LobRow>)
    requires |anon| == |lob| && BestFirst(side, Prices(anon))
    requires forall i :: 0 <= i < |lob| ==> anon[i] == (lob[i].0, SumQty(lob[i].1))
    requires forall i :: 0 <= i < |lob| ==> lob[i].1 != [] && EntriesSorted(lob[i].1)
    requires forall i :: 0 <= i < |lob| ==> multiset(lob[i].1) == multiset(EntriesAt(rows, lob[i].0))
    requires forall p :: EntriesAt(rows, p) != [] ==> p in Prices(anon)
    ensures Ranked(side, rows, lob)
  {
    forall i, j | 0 <= i < j < |lob| ensures side.AtLeast(lob[i].0, lob[j].0) && lob[i].0 != lob[j].0 {
      assert Prices(anon)[i] == lob[i].0 && Prices(anon)[j] == lob[j].0;
    }
    forall p | EntriesAt(rows, p) != [] ensures exists i :: 0 <= i < |lob| && lob[i].0 == p {
      var i :| 0 <= i < |anon| && Prices(anon)[i] == p;
      assert lob[i].0 == p;
    }
  }

  /** Every price some row has is one of the levels' prices. */
  lemma RowPricesListed(side: Side, orders: Dict<int, Order>)
    requires Wf(orders)
    ensures forall p :: EntriesAt(RowsOf(orders), p) != [] ==> p in Prices(AnonOf(side, orders))
  {
    var rows := RowsOf(orders);
    var g := Group(rows);
    GroupWf(rows);
    SortedPricesBestFirst(side, g.keys);
    AnonPrices(side, orders);
    forall p | EntriesAt(rows, p) != [] ensures p in Prices(AnonOf(side, orders)) {
      LevelEntriesAt(rows, p);
    }
  }

  lemma BuiltRanked(side: Side, orders: Dict<int, Order>)
    requires Wf(orders)
    ensures Ranked(side, RowsOf(orders), LobOf(side, orders))
  {
    BuiltLevels(side, orders);
    RowPricesListed(side, orders);
    RankedLevels(side, RowsOf(orders), AnonOf(side, orders), LobOf(side, orders));
  }

  /** On a ranked list, the front level's price is at least as good as
      any row's, and its front entry arrived no later than any row at that
      price. */
  lemma FrontRanked(side: Side, rows: seq<Row>, lob: seq<LobRow>, p: int, x: LobEntry)
    requires Ranked(side, rows, lob) && (p, x) in rows
    ensures lob != [] && side.AtLeast(lob[0].0, p)
    ensures p == lob[0].0 ==> lob[0].1[0].time <= x.time
  {
    EntriesAtPrice(rows, p, x);
    var i :| 0 <= i < |lob| && lob[i].0 == p;
    if i == 0 {
      assert x in multiset(lob[0].1);
      var m :| 0 <= m < |lob[0].1| && lob[0].1[m] == x;
      SortedByArrival(lob[0].1, 0, m);
    } else {
      assert side.AtLeast(lob[0].0, lob[i].0) && lob[0].0 != lob[i].0;
    }
  }

  /** The front entry of a ranked list is one of the rows at its price. */
  lemma FrontListed(side: Side, rows: seq<Row>, lob: seq<LobRow>)
    requires Ranked(side, rows, lob) && lob != []
    ensures (lob[0].0, lob[0].1[0]) in rows
  {
    assert lob[0].1[0] in multiset(lob[0].1);
    EntriesAtPrice(rows, lob[0].0, lob[0].1[0]);
  }

  /** Where a live order sits among the rows. */
  lemma LiveRow(orders: Dict<int, Order>, k: int) returns (i: int)
    requires Wf(orders) && k in orders.vals
    ensures 0 <= i < |orders.keys| && orders.keys[i] == k
    ensures RowsOf(orders)[i] == (orders.vals[k].price, EntryOf(orders.vals[k]))
  {
    i :| 0 <= i < |orders.keys| && orders.keys[i] == k;
  }

  /** Entry `e` at level price `p` goes before order `o`: its price is at
      least as good, and at an equal price it arrived no later. */
  ghost predicate Outranks(side: Side, p: int, e: LobEntry, o: Order) {
    side.AtLeast(p, o.price) && (o.price == p ==> e.time <= o.time)
  }

  /** On a ranked list of the live orders' rows, the front entry is a live
      order, filed under its id, at the front level's price. */
  lemma RankedFrontLive(side: Side, orders: Dict<int, Order>, lob: seq<LobRow>)
    requires Wf(orders) && KeyedById(orders) && |orders.keys| > 0
    requires Ranked(side, RowsOf(orders), lob)
    ensures lob != [] && lob[0].1 != []
    ensures var e := lob[0].1[0];
            e.id in orders.vals && orders.vals[e.id].price == lob[0].0 && EntryOf(orders.vals[e.id]) == e
  {
    var rows := RowsOf(orders);
    var k0 := orders.keys[0];
    assert rows[0] == (orders.vals[k0].price, EntryOf(orders.vals[k0]));
    FrontRanked(side, rows, lob, rows[0].0, rows[0].1);
    FrontListed(side, rows, lob);
    var i :| 0 <= i < |rows| && rows[i] == (lob[0].0, lob[0].1[0]);
    var k := orders.keys[i];
    assert rows[i] == (orders.vals[k].price, EntryOf(orders.vals[k]));
  }

  /** On a ranked list of the live orders' rows, the front entry outranks
      every live order. */
  lemma RankedFrontBeats(side: Side, orders: Dict<int, Order>, lob: seq<LobRow>)
    requires Wf(orders) && Ranked(side, RowsOf(orders), lob) && lob != []
    ensures forall k :: k in orders.vals ==> Outranks(side, lob[0].0, lob[0].1[0], orders.vals[k])
  {
    var rows := RowsOf(orders);
    forall k | k in orders.vals ensures Outranks(side, lob[0].0, lob[0].1[0], orders.vals[k]) {
      var j := LiveRow(orders, k);
      FrontRanked(side, rows, lob, rows[j].0, rows[j].1);
    }
  }

  /** Price-time priority: the front entry of the level list is a live
      order at the front level's price, and it outranks every live order:
      no live order has a better price, and none at that price arrived
      before it. */
  lemma FrontPriority(side: Side, orders: Dict<int, Order>)
    requires Wf(orders) && KeyedById(orders) && |orders.keys| > 0
    ensures var lob := LobOf(side, orders);
            lob != [] && lob[0].1 != []
            && var e := lob[0].1[0];
               e.id in orders.vals && orders.vals[e.id].price == lob[0].0 && EntryOf(orders.vals[e.id]) == e
               && forall k :: k in orders.vals ==> Outranks(side, lob[0].0, e, orders.vals[k])
  {
    BuiltRanked(side, orders);
    RankedFrontLive(side, orders, LobOf(side, orders));
    RankedFrontBeats(side, orders, LobOf(side, orders));
  }
}
