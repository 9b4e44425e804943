/** The price-level view every `build_lob` derives from its live orders: a
    dict from price to [total quantity, entries in dict order], and the
    anonymised (price, quantity) list sorted by price. */
module PriceLevels {
  import opened Basics

  /** One order as the book lists it: [time, qty, tid, id]. */
  datatype LobEntry = LobEntry(time: real, qty: int, tid: string, id: int)

  /** `lob[price]`: [total quantity at the price, entries in dict order]. */
  datatype Level = Level(qty: int, entries: seq<LobEntry>)

  /** A live order reduced to what `build_lob` reads: its price and entry. */
  type Row = (int, LobEntry)

  function SumQty(es: seq<LobEntry>): int {
    if es == [] then 0 else SumQty(es[..|es| - 1]) + es[|es| - 1].qty
  }

  /** The entries priced `p`, in row order. */
  function EntriesAt(rows: seq<Row>, p: int): seq<LobEntry> {
    if rows == [] then []
    else
      EntriesAt(rows[..|rows| - 1], p)
      + (if rows[|rows| - 1].0 == p then [rows[|rows| - 1].1] else [])
  }

  /** The level a price holds once `e` is added to what it held before. */
  function Extend(prior: Option<Level>, e: LobEntry): Level {
    match prior
    case Some(l) => Level(l.qty + e.qty, l.entries + [e])
    case None => Level(e.qty, [e])
  }

  /** One pass of `build_lob`'s loop body: add the row's quantity to its
      price's total and append its entry, creating the level when new. */
  function AddRow(lob: Dict<int, Level>, r: Row): Dict<int, Level> {
    Put(lob, r.0, Extend(Get(lob, r.0), r.1))
  }

  /** The dict `build_lob`'s loop leaves after visiting `rows` in order. */
  function Group(rows: seq<Row>): Dict<int, Level> {
    if rows == [] then EmptyDict() else AddRow(Group(rows[..|rows| - 1]), rows[|rows| - 1])
  }

  /** The level a price holds after the rows: none, or the summed entries. */
  function LevelOf(rows: seq<Row>, p: int): Option<Level> {
    var es := EntriesAt(rows, p);
    if es == [] then None else Some(Level(SumQty(es), es))
  }

  lemma {:induction false} LevelOfSnoc(init: seq<Row>, r: Row)
    ensures LevelOf(init + [r], r.0) == Some(Extend(LevelOf(init, r.0), r.1))
  {
    var rows := init + [r];
    assert rows[..|rows| - 1] == init;
    var es := EntriesAt(init, r.0);
    assert EntriesAt(rows, r.0) == es + [r.1];
    assert (es + [r.1])[..|es|] == es;
    if es == [] {
      assert es + [r.1] == [r.1];
      assert [r.1][..0] == [];
      assert SumQty([r.1]) == r.1.qty;
    }
  }

  lemma {:induction false} LevelOfSnocOther(init: seq<Row>, r: Row, p: int)
    requires p != r.0
    ensures LevelOf(init + [r], p) == LevelOf(init, p)
  {
    var rows := init + [r];
    assert rows[..|rows| - 1] == init;
    assert EntriesAt(rows, p) == EntriesAt(init, p) + [];
    assert EntriesAt(init, p) + [] == EntriesAt(init, p);
  }

  lemma {:induction false} GroupAt(rows: seq<Row>, p: int)
    ensures Get(Group(rows), p) == LevelOf(rows, p)
  {
    if rows != [] {
      var init, r := rows[..|rows| - 1], rows[|rows| - 1];
      assert rows == init + [r];
      GroupAt(init, r.0);
      GroupAt(init, p);
      if r.0 == p {
        LevelOfSnoc(init, r);
      } else {
        LevelOfSnocOther(init, r, p);
      }
    }
  }

  lemma {:induction false} GroupWf(rows: seq<Row>)
    ensures Wf(Group(rows))
  {
    if rows != [] {
      GroupWf(rows[..|rows| - 1]);
    }
  }

  lemma {:induction false} EntriesAtPrice(rows: seq<Row>, p: int, e: LobEntry)
    ensures e in EntriesAt(rows, p) <==> (p, e) in rows
  {
    if rows != [] {
      var init := rows[..|rows| - 1];
      EntriesAtPrice(init, p, e);
      assert rows == init + [rows[|rows| - 1]];
    }
  }

  // ---- Python's sorted() on distinct integer keys ----

  ghost predicate Ascending(s: seq<int>) {
    forall i, j :: 0 <= i < j < |s| ==> s[i] <= s[j]
  }

  ghost predicate StrictlyAscending(s: seq<int>) {
    forall i, j :: 0 <= i < j < |s| ==> s[i] < s[j]
  }

  function Insert(x: int, s: seq<int>): (r: seq<int>)
    ensures multiset(r) == multiset(s) + multiset{x}
    ensures forall y :: y in r <==> y == x || y in s
  {
    if s == [] || x <= s[0] then [x] + s
    else
      assert s == [s[0]] + s[1..];
      [s[0]] + Insert(x, s[1..])
  }

  lemma {:induction false} InsertAscending(x: int, s: seq<int>)
    requires Ascending(s)
    ensures Ascending(Insert(x, s))
  {
    if s != [] && x > s[0] {
      var t := Insert(x, s[1..]);
      InsertAscending(x, s[1..]);
      forall k | 0 <= k < |t| ensures s[0] <= t[k] {
        assert t[k] in t;
        if t[k] != x {
          var m :| 0 <= m < |s[1..]| && s[1..][m] == t[k];
          assert s[m + 1] == t[k];
        }
      }
    }
  }

  /** `sorted(keys)`: the same keys in ascending order. */
  function SortAsc(s: seq<int>): (r: seq<int>)
    ensures multiset(r) == multiset(s)
    ensures Ascending(r)
  {
    if s == [] then []
    else
      assert s == [s[0]] + s[1..];
      InsertAscending(s[0], SortAsc(s[1..]));
      Insert(s[0], SortAsc(s[1..]))
  }

  lemma {:induction false} DistinctNoDuplicates(s: seq<int>, x: int)
    requires Distinct(s)
    ensures multiset(s)[x] <= 1
  {
    if s != [] {
      DistinctNoDuplicates(s[1..], x);
      assert s == [s[0]] + s[1..];
      assert s[0] !in s[1..];
    }
  }

  lemma TwoPositions(s: seq<int>, i: int, j: int)
    requires 0 <= i < j < |s|
    ensures s[i] == s[j] ==> multiset(s)[s[i]] >= 2
  {
    assert s == s[..j] + s[j..];
    assert s[i] in s[..j];
    assert s[j] in s[j..];
  }

  lemma AscendingUniqueIsStrict(s: seq<int>)
    requires Ascending(s)
    requires forall x :: multiset(s)[x] <= 1
    ensures StrictlyAscending(s)
  {
    forall i, j | 0 <= i < j < |s| ensures s[i] < s[j] {
      TwoPositions(s, i, j);
    }
  }

  // ---- the anonymised projection ----

  /** Quantity recorded at price `p` (0 when there is no level). */
  function QtyAt(lob: Dict<int, Level>, p: int): int {
    match Get(lob, p)
    case Some(l) => l.qty
    case None => 0
  }

  function Project(lob: Dict<int, Level>, ps: seq<int>): (a: seq<(int, int)>)
    ensures |a| == |ps|
    ensures forall i :: 0 <= i < |ps| ==> a[i] == (ps[i], QtyAt(lob, ps[i]))
  {
    if ps == [] then [] else [(ps[0], QtyAt(lob, ps[0]))] + Project(lob, ps[1..])
  }

  /** `lob_anon`: one [price, total qty] pair per level, by ascending price. */
  function AnonAsc(lob: Dict<int, Level>): seq<(int, int)> {
    Project(lob, SortAsc(lob.keys))
  }

  function Prices(a: seq<(int, int)>): (ps: seq<int>)
    ensures |ps| == |a|
    ensures forall i :: 0 <= i < |a| ==> ps[i] == a[i].0
  {
    if a == [] then [] else [a[0].0] + Prices(a[1..])
  }

  /** Over a well-formed dict, the anonymised view lists every key once, in
      strictly ascending order, with the quantity stored under it. */
  lemma AnonAscOrdered(lob: Dict<int, Level>)
    requires Wf(lob)
    ensures StrictlyAscending(Prices(AnonAsc(lob)))
    ensures forall p :: p in Prices(AnonAsc(lob)) <==> p in lob.vals
    ensures |AnonAsc(lob)| == |lob.keys|
    ensures forall i :: 0 <= i < |AnonAsc(lob)| ==> AnonAsc(lob)[i].1 == QtyAt(lob, AnonAsc(lob)[i].0)
  {
    var ps := SortAsc(lob.keys);
    assert Prices(AnonAsc(lob)) == ps;
    SortedKeysStrict(lob.keys);
    SortedKeysSame(lob.keys);
    assert |multiset(ps)| == |multiset(lob.keys)|;
  }

  lemma SortedKeysStrict(keys: seq<int>)
    requires Distinct(keys)
    ensures StrictlyAscending(SortAsc(keys))
  {
    var ps := SortAsc(keys);
    forall x ensures multiset(ps)[x] <= 1 {
      DistinctNoDuplicates(keys, x);
    }
    AscendingUniqueIsStrict(ps);
  }

  lemma SortedKeysSame(keys: seq<int>)
    ensures forall p :: p in SortAsc(keys) <==> p in keys
  {
    var ps := SortAsc(keys);
    forall p ensures p in ps <==> p in keys {
      assert p in ps <==> p in multiset(ps);
      assert p in keys <==> p in multiset(keys);
    }
  }

  /** The anonymised view of the grouped orders: strictly ascending prices,
      exactly the distinct prices of the rows, each with the summed quantity of
      the rows at that price. */
  lemma AnonOfGroup(rows: seq<Row>)
    ensures StrictlyAscending(Prices(AnonAsc(Group(rows))))
    ensures forall p :: p in Prices(AnonAsc(Group(rows))) <==> EntriesAt(rows, p) != []
    ensures forall i :: 0 <= i < |AnonAsc(Group(rows))| ==>
              AnonAsc(Group(rows))[i].1 == SumQty(EntriesAt(rows, AnonAsc(Group(rows))[i].0))
  {
    var lob := Group(rows);
    GroupWf(rows);
    AnonAscOrdered(lob);
    forall p ensures p in lob.vals <==> EntriesAt(rows, p) != [] {
      GroupAt(rows, p);
    }
    forall i | 0 <= i < |AnonAsc(lob)|
      ensures AnonAsc(lob)[i].1 == SumQty(EntriesAt(rows, AnonAsc(lob)[i].0))
    {
      GroupAt(rows, AnonAsc(lob)[i].0);
    }
  }
}
