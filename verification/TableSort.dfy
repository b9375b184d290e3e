/**
  Sorting table rows by a column: frontend/lib/use-table-sort.ts.

  `localeCompare` is a given total preorder on strings and the text of a number is a given function;
  numbers are reals. `Array.prototype.sort` is an insertion sort; the order it should produce has at
  most one arrangement (OrderIsUnique), so any correct sort gives the same rows.
 */
module TableSort {
  import opened Options

  // ---- Cells, rows and the comparator ----

  /** `Other` is a value that is neither a number nor a string, with the text `String(value)` gives. */
  datatype Cell = Null | Num(n: real) | Str(s: string) | Other(image: string)

  type Row = map<string, Cell>

  datatype Direction = Asc | Desc

  datatype Env = Env(locale: (string, string) -> int, text: real -> string)

  function Flip(d: Direction): Direction {
    if d.Asc? then Desc else Asc
  }

  /** A missing field is `undefined`, which the comparator treats as null. */
  function Value(row: Row, key: string): Cell {
    if key in row then row[key] else Null
  }

  ghost predicate LocaleOrder(env: Env) {
    (forall a, b :: env.locale(a, b) < 0 <==> env.locale(b, a) > 0) &&
    (forall a, b, c :: env.locale(a, b) <= 0 && env.locale(b, c) <= 0 ==> env.locale(a, c) <= 0)
  }

  function Image(env: Env, c: Cell): string {
    match c
    case Null => "null"
    case Num(n) => env.text(n)
    case Str(s) => s
    case Other(t) => t
  }

  function CompareCells(env: Env, direction: Direction, a: Cell, b: Cell): real {
    if a.Null? && b.Null? then 0.0
    else if a.Null? then 1.0
    else if b.Null? then -1.0
    else
      var comparison :=
        if a.Str? && b.Str? then env.locale(a.s, b.s) as real
        else if a.Num? && b.Num? then a.n - b.n
        else env.locale(Image(env, a), Image(env, b)) as real;
      if direction.Asc? then comparison else -comparison
  }

  predicate NoKey(activeKey: Option<string>) {
    activeKey.None? || activeKey.value == ""
  }

  function CompareRows(env: Env, activeKey: Option<string>, direction: Direction): (Row, Row) -> real {
    if NoKey(activeKey) then (a, b) => 0.0
    else (a: Row, b: Row) => CompareCells(env, direction, Value(a, activeKey.value), Value(b, activeKey.value))
  }

  // ---- Sorting ----

  datatype Item<T> = Item(row: T, index: int)

  function Indexed<T>(rows: seq<T>): (items: seq<Item<T>>)
    ensures |items| == |rows| && forall i :: 0 <= i < |rows| ==> items[i] == Item(rows[i], i)
  {
    seq(|rows|, i requires 0 <= i < |rows| => Item(rows[i], i))
  }

  function Rows<T>(items: seq<Item<T>>): seq<T> {
    seq(|items|, i requires 0 <= i < |items| => items[i].row)
  }

  function TieBreak<T>(cmp: (T, T) -> real): (Item<T>, Item<T>) -> real {
    (a: Item<T>, b: Item<T>) => if cmp(a.row, b.row) == 0.0 then (a.index - b.index) as real else cmp(a.row, b.row)
  }

  function Insert<T>(x: T, s: seq<T>, cmp: (T, T) -> real): seq<T> {
    if s == [] || cmp(x, s[0]) <= 0.0 then [x] + s else [s[0]] + Insert(x, s[1..], cmp)
  }

  function ArraySort<T>(s: seq<T>, cmp: (T, T) -> real): seq<T> {
    if s == [] then [] else Insert(s[0], ArraySort(s[1..], cmp), cmp)
  }

  function StableSort<T>(rows: seq<T>, cmp: (T, T) -> real): seq<T> {
    Rows(ArraySort(Indexed(rows), TieBreak(cmp)))
  }

  function SortRows(env: Env, rows: seq<Row>, activeKey: Option<string>, direction: Direction): seq<Row> {
    if NoKey(activeKey) then rows else StableSort(rows, CompareRows(env, activeKey, direction))
  }

  // ---- What a stable sort must produce ----

  /** Row x comes before row y: it is smaller, or equal and earlier in the input. */
  ghost predicate Before<T>(rows: seq<T>, cmp: (T, T) -> real, x: int, y: int)
    requires 0 <= x < |rows| && 0 <= y < |rows|
  {
    cmp(rows[x], rows[y]) < 0.0 || (cmp(rows[x], rows[y]) == 0.0 && x < y)
  }

  /** p lists every input position once, in sorted order. */
  ghost predicate IsOrder<T>(p: seq<int>, rows: seq<T>, cmp: (T, T) -> real) {
    |p| == |rows| &&
    (forall i :: 0 <= i < |p| ==> 0 <= p[i] < |rows|) &&
    (forall i, j :: 0 <= i < j < |p| ==> p[i] != p[j] && Before(rows, cmp, p[i], p[j]))
  }

  ghost predicate Arranges<T>(p: seq<int>, rows: seq<T>, out: seq<T>) {
    |p| == |out| && forall i :: 0 <= i < |p| ==> 0 <= p[i] < |rows| && out[i] == rows[p[i]]
  }

  ghost predicate SortedBy<T>(rows: seq<T>, out: seq<T>, cmp: (T, T) -> real) {
    exists p :: IsOrder(p, rows, cmp) && Arranges(p, rows, out)
  }

  ghost predicate Opposed<T(!new)>(cmp: (T, T) -> real) {
    forall a, b :: cmp(a, b) < 0.0 <==> cmp(b, a) > 0.0
  }

  ghost predicate Transitive<T>(rows: seq<T>, cmp: (T, T) -> real) {
    forall x, y, z | 0 <= x < |rows| && 0 <= y < |rows| && 0 <= z < |rows| ::
      Before(rows, cmp, x, y) && Before(rows, cmp, y, z) ==> Before(rows, cmp, x, z)
  }

  ghost predicate PreorderOn<T>(rows: seq<T>, cmp: (T, T) -> real) {
    forall a, b, c :: a in rows && b in rows && c in rows && cmp(a, b) <= 0.0 && cmp(b, c) <= 0.0 ==> cmp(a, c) <= 0.0
  }

  // ---- Insertion sort ----

  ghost predicate Ascends<T>(s: seq<T>, cmp: (T, T) -> real) {
    forall i, j :: 0 <= i < j < |s| ==> cmp(s[i], s[j]) <= 0.0
  }

  lemma {:induction false} InsertKeeps<T>(x: T, s: seq<T>, cmp: (T, T) -> real)
    ensures multiset(Insert(x, s, cmp)) == multiset(s) + multiset{x}
  {
    if !(s == [] || cmp(x, s[0]) <= 0.0) {
      InsertKeeps(x, s[1..], cmp);
      assert s == [s[0]] + s[1..];
    }
  }

  lemma {:induction false} SortKeeps<T>(s: seq<T>, cmp: (T, T) -> real)
    ensures multiset(ArraySort(s, cmp)) == multiset(s)
  {
    if s != [] {
      SortKeeps(s[1..], cmp);
      InsertKeeps(s[0], ArraySort(s[1..], cmp), cmp);
      assert s == [s[0]] + s[1..];
    }
  }

  lemma AscendsInFront<T>(x: T, s: seq<T>, cmp: (T, T) -> real)
    requires Ascends(s, cmp) && forall y :: y in s ==> cmp(x, y) <= 0.0
    ensures Ascends([x] + s, cmp)
  {
    var r := [x] + s;
    assert forall j :: 0 < j < |r| ==> r[j] == s[j - 1];
  }

  /** Inserting before the first element that is not smaller keeps an ascending list ascending. */
  lemma {:induction false} InsertAscends<T>(x: T, s: seq<T>, cmp: (T, T) -> real)
    requires Ascends(s, cmp) && PreorderOn([x] + s, cmp)
    requires forall y, z :: y in [x] + s && z in [x] + s ==> cmp(y, z) <= 0.0 || cmp(z, y) <= 0.0
    ensures Ascends(Insert(x, s, cmp), cmp)
  {
    hide Ascends;
    if s == [] {
      AscendsInFront(x, s, cmp);
    } else if cmp(x, s[0]) <= 0.0 {
      forall y | y in s ensures cmp(x, y) <= 0.0 {
        HeadIsLeast(s, cmp, y);
        assert x in [x] + s && s[0] in [x] + s && y in [x] + s;
      }
      AscendsInFront(x, s, cmp);
    } else {
      var rest := s[1..];
      TailAscends(s, cmp);
      assert s == [s[0]] + rest;
      assert PreorderOn([x] + rest, cmp);
      InsertAscends(x, rest, cmp);
      forall y | y in Insert(x, rest, cmp) ensures cmp(s[0], y) <= 0.0 {
        InsertKeeps(x, rest, cmp);
        assert y in multiset(Insert(x, rest, cmp));
        if y in rest {
          HeadIsLeast(s, cmp, y);
        }
      }
      AscendsInFront(s[0], Insert(x, rest, cmp), cmp);
    }
  }

  lemma TailAscends<T>(s: seq<T>, cmp: (T, T) -> real)
    requires s != [] && Ascends(s, cmp)
    ensures Ascends(s[1..], cmp)
  {
  }

  /** In an ascending list the first element is at most each other one. */
  lemma HeadIsLeast<T>(s: seq<T>, cmp: (T, T) -> real, y: T)
    requires s != [] && Ascends(s, cmp) && y in s && cmp(s[0], s[0]) <= 0.0
    ensures cmp(s[0], y) <= 0.0
  {
  }

  lemma {:induction false} SortAscends<T>(s: seq<T>, cmp: (T, T) -> real)
    requires PreorderOn(s, cmp)
    requires forall a, b :: a in s && b in s ==> cmp(a, b) <= 0.0 || cmp(b, a) <= 0.0
    ensures Ascends(ArraySort(s, cmp), cmp)
  {
    if s != [] {
      var rest := s[1..];
      SortAscends(rest, cmp);
      SortKeeps(rest, cmp);
      var t := ArraySort(rest, cmp);
      forall y | y in [s[0]] + t ensures y in s {
        if y in t {
          assert y in multiset(t);
          assert y in rest;
        }
      }
      InsertAscends(s[0], t, cmp);
    }
  }

  // ---- A stable sort sorts exactly when there is an order at all ----

  /** Every position occurs in an order. */
  lemma InOrder<T>(p: seq<int>, rows: seq<T>, cmp: (T, T) -> real, x: int) returns (i: int)
    requires IsOrder(p, rows, cmp) && 0 <= x < |rows|
    ensures 0 <= i < |p| && p[i] == x
  {
    var values, all := (set v | v in p), Positions(|rows|);
    DistinctSize(p);
    if x !in p {
      Subset(values, all - {x});
    }
    i :| 0 <= i < |p| && p[i] == x;
  }

  lemma Subset<T>(a: set<T>, b: set<T>)
    requires a <= b
    ensures |a| <= |b|
  {
    assert b == a + (b - a);
  }

  function Positions(n: nat): (r: set<int>)
    ensures |r| == n && forall v :: v in r <==> 0 <= v < n
  {
    if n == 0 then {} else Positions(n - 1) + {n - 1}
  }

  lemma {:induction false} DistinctSize<T>(p: seq<T>)
    requires forall i, j :: 0 <= i < j < |p| ==> p[i] != p[j]
    ensures |set v | v in p| == |p|
  {
    if p != [] {
      var rest := p[1..];
      DistinctSize(rest);
      assert p == [p[0]] + rest;
      assert (set v | v in p) == (set v | v in rest) + {p[0]};
    }
  }

  /** If some arrangement is in order then "before" is transitive on the rows. */
  lemma OrderIsTransitive<T(!new)>(p: seq<int>, rows: seq<T>, cmp: (T, T) -> real)
    requires Opposed(cmp) && IsOrder(p, rows, cmp)
    ensures Transitive(rows, cmp)
  {
    forall x, y, z | 0 <= x < |rows| && 0 <= y < |rows| && 0 <= z < |rows| &&
      Before(rows, cmp, x, y) && Before(rows, cmp, y, z) ensures Before(rows, cmp, x, z)
    {
      var i := InOrder(p, rows, cmp, x);
      var j := InOrder(p, rows, cmp, y);
      var k := InOrder(p, rows, cmp, z);
      BeforeIsEarlier(p, rows, cmp, i, j);
      BeforeIsEarlier(p, rows, cmp, j, k);
    }
  }

  lemma BeforeIsEarlier<T(!new)>(p: seq<int>, rows: seq<T>, cmp: (T, T) -> real, i: int, j: int)
    requires Opposed(cmp) && IsOrder(p, rows, cmp) && 0 <= i < |p| && 0 <= j < |p|
    ensures Before(rows, cmp, p[i], p[j]) <==> i < j
  {
    if i > j {
      assert Before(rows, cmp, p[j], p[i]);
    } else if i == j {
      var r := rows[p[i]];
      assert cmp(r, r) < 0.0 <==> cmp(r, r) > 0.0;
    }
  }

  /** There is at most one order, whatever sorts the rows. */
  lemma OrderIsUnique<T(!new)>(p: seq<int>, q: seq<int>, rows: seq<T>, cmp: (T, T) -> real)
    requires Opposed(cmp) && IsOrder(p, rows, cmp) && IsOrder(q, rows, cmp)
    ensures p == q
  {
    OrderPrefix(p, q, rows, cmp, |p|);
    assert p[..|p|] == p && q[..|p|] == q;
  }

  lemma {:induction false} OrderPrefix<T(!new)>(p: seq<int>, q: seq<int>, rows: seq<T>, cmp: (T, T) -> real, n: nat)
    requires Opposed(cmp) && IsOrder(p, rows, cmp) && IsOrder(q, rows, cmp) && n <= |p|
    ensures p[..n] == q[..n]
  {
    if n > 0 {
      OrderPrefix(p, q, rows, cmp, n - 1);
      var k := n - 1;
      assert forall l :: 0 <= l < k ==> p[l] == p[..k][l] && q[l] == q[..k][l];
      var i := InOrder(q, rows, cmp, p[k]);
      var j := InOrder(p, rows, cmp, q[k]);
      BeforeIsEarlier(p, rows, cmp, k, j);
      BeforeIsEarlier(q, rows, cmp, i, k);
    }
  }

  lemma SortedIsUnique<T(!new)>(rows: seq<T>, out: seq<T>, out': seq<T>, cmp: (T, T) -> real)
    requires Opposed(cmp) && SortedBy(rows, out, cmp) && SortedBy(rows, out', cmp)
    ensures out == out'
  {
    var p :| IsOrder(p, rows, cmp) && Arranges(p, rows, out);
    var q :| IsOrder(q, rows, cmp) && Arranges(q, rows, out');
    OrderIsUnique(p, q, rows, cmp);
  }

  lemma TieBreakIsBefore<T(!new)>(rows: seq<T>, cmp: (T, T) -> real, x: int, y: int)
    requires Opposed(cmp) && 0 <= x < |rows| && 0 <= y < |rows|
    ensures TieBreak(cmp)(Item(rows[x], x), Item(rows[y], y)) <= 0.0 <==> x == y || Before(rows, cmp, x, y)
    ensures x != y ==> (Before(rows, cmp, x, y) <==> !Before(rows, cmp, y, x))
  {
    assert cmp(rows[x], rows[y]) < 0.0 <==> cmp(rows[y], rows[x]) > 0.0;
    assert cmp(rows[y], rows[x]) < 0.0 <==> cmp(rows[x], rows[y]) > 0.0;
  }

  lemma TieBreakTransitive<T(!new)>(rows: seq<T>, cmp: (T, T) -> real)
    requires Opposed(cmp) && Transitive(rows, cmp)
    ensures PreorderOn(Indexed(rows), TieBreak(cmp))
    ensures forall a, b :: a in Indexed(rows) && b in Indexed(rows) ==> TieBreak(cmp)(a, b) <= 0.0 || TieBreak(cmp)(b, a) <= 0.0
  {
    var s, tie := Indexed(rows), TieBreak(cmp);
    forall a, b, c | a in s && b in s && c in s && tie(a, b) <= 0.0 && tie(b, c) <= 0.0 ensures tie(a, c) <= 0.0 {
      TieBreakIsBefore(rows, cmp, a.index, b.index);
      TieBreakIsBefore(rows, cmp, b.index, c.index);
      TieBreakIsBefore(rows, cmp, a.index, c.index);
    }
    forall a, b | a in s && b in s ensures tie(a, b) <= 0.0 || tie(b, a) <= 0.0 {
      TieBreakIsBefore(rows, cmp, a.index, b.index);
      TieBreakIsBefore(rows, cmp, b.index, a.index);
    }
  }

  lemma OccursTwice<T>(s: seq<T>, i: int, j: int)
    requires 0 <= i < j < |s| && s[i] == s[j]
    ensures multiset(s)[s[i]] >= 2
  {
    assert s == s[..j] + [s[j]] + s[j + 1..];
    assert s[i] in s[..j];
  }

  lemma OccursOnce<T>(t: seq<T>, k: int)
    requires 0 <= k < |t| && forall i, j :: 0 <= i < j < |t| ==> t[i] != t[j]
    ensures multiset(t)[t[k]] == 1
  {
    assert t == t[..k] + [t[k]] + t[k + 1..];
    assert t[k] !in t[..k] && t[k] !in t[k + 1..];
  }

  lemma DistinctMultiset<T>(s: seq<T>, t: seq<T>, i: int, j: int)
    requires multiset(s) == multiset(t) && 0 <= i < j < |s|
    requires forall k, l :: 0 <= k < l < |t| ==> t[k] != t[l]
    ensures s[i] != s[j]
  {
    assert s[i] in multiset(t);
    var k :| 0 <= k < |t| && t[k] == s[i];
    OccursOnce(t, k);
    if s[i] == s[j] {
      OccursTwice(s, i, j);
    }
  }

  lemma SortedItem<T(!new)>(rows: seq<T>, cmp: (T, T) -> real, i: int)
    requires 0 <= i < |ArraySort(Indexed(rows), TieBreak(cmp))|
    ensures var item := ArraySort(Indexed(rows), TieBreak(cmp))[i];
      0 <= item.index < |rows| && item == Item(rows[item.index], item.index)
  {
    var items := Indexed(rows);
    SortKeeps(items, TieBreak(cmp));
    assert ArraySort(items, TieBreak(cmp))[i] in multiset(items);
  }

  lemma SortedItems<T(!new)>(rows: seq<T>, cmp: (T, T) -> real, i: int, j: int)
    requires Opposed(cmp) && Transitive(rows, cmp)
    requires 0 <= i < j < |ArraySort(Indexed(rows), TieBreak(cmp))|
    ensures var sorted := ArraySort(Indexed(rows), TieBreak(cmp));
      var x, y := sorted[i].index, sorted[j].index;
      0 <= x < |rows| && 0 <= y < |rows| && x != y && Before(rows, cmp, x, y)
  {
    hide Transitive, Opposed, PreorderOn, TieBreak, ArraySort, Before;
    var items, tie := Indexed(rows), TieBreak(cmp);
    var sorted := ArraySort(items, tie);
    TieBreakTransitive(rows, cmp);
    SortAscends(items, tie);
    SortKeeps(items, tie);
    SortedItem(rows, cmp, i);
    SortedItem(rows, cmp, j);
    DistinctMultiset(sorted, items, i, j);
    TieBreakIsBefore(rows, cmp, sorted[i].index, sorted[j].index);
  }

  lemma SortedWhenTransitive<T(!new)>(rows: seq<T>, cmp: (T, T) -> real)
    requires Opposed(cmp) && Transitive(rows, cmp)
    ensures SortedBy(rows, StableSort(rows, cmp), cmp)
  {
    hide Transitive, Opposed, TieBreak, ArraySort, Before;
    var items, tie := Indexed(rows), TieBreak(cmp);
    var sorted := ArraySort(items, tie);
    SortKeeps(items, tie);
    assert |sorted| == |multiset(sorted)| == |multiset(items)| == |rows|;
    forall i | 0 <= i < |sorted| ensures 0 <= sorted[i].index < |rows| && sorted[i].row == rows[sorted[i].index] {
      SortedItem(rows, cmp, i);
    }
    var p := seq(|sorted|, i requires 0 <= i < |sorted| => sorted[i].index);
    forall i, j | 0 <= i < j < |p| ensures p[i] != p[j] && Before(rows, cmp, p[i], p[j]) {
      SortedItems(rows, cmp, i, j);
    }
    assert IsOrder(p, rows, cmp) && Arranges(p, rows, StableSort(rows, cmp));
  }

  /** The stable sort yields a sorted arrangement exactly when the comparator is transitive on the rows. */
  lemma SortedIff<T(!new)>(rows: seq<T>, cmp: (T, T) -> real)
    requires Opposed(cmp)
    ensures SortedBy(rows, StableSort(rows, cmp), cmp) <==> Transitive(rows, cmp)
  {
    if Transitive(rows, cmp) {
      SortedWhenTransitive(rows, cmp);
    }
    if SortedBy(rows, StableSort(rows, cmp), cmp) {
      var p :| IsOrder(p, rows, cmp) && Arranges(p, rows, StableSort(rows, cmp));
      OrderIsTransitive(p, rows, cmp);
    }
  }

  lemma {:induction false} InsertKeepsRows<T>(x: Item<T>, s: seq<Item<T>>, cmp: (Item<T>, Item<T>) -> real)
    ensures multiset(Rows(Insert(x, s, cmp))) == multiset(Rows(s)) + multiset{x.row}
  {
    if s == [] || cmp(x, s[0]) <= 0.0 {
      assert Rows([x] + s) == [x.row] + Rows(s);
    } else {
      var rest := s[1..];
      InsertKeepsRows(x, rest, cmp);
      assert Rows(s) == [s[0].row] + Rows(rest);
      assert Rows([s[0]] + Insert(x, rest, cmp)) == [s[0].row] + Rows(Insert(x, rest, cmp));
    }
  }

  lemma {:induction false} SortKeepsRows<T>(s: seq<Item<T>>, cmp: (Item<T>, Item<T>) -> real)
    ensures multiset(Rows(ArraySort(s, cmp))) == multiset(Rows(s))
  {
    if s != [] {
      SortKeepsRows(s[1..], cmp);
      InsertKeepsRows(s[0], ArraySort(s[1..], cmp), cmp);
      assert Rows(s) == [s[0].row] + Rows(s[1..]);
    }
  }

  /** Whatever the comparator says, sorting loses no row and invents none. */
  lemma SortRowsPermutes(env: Env, rows: seq<Row>, activeKey: Option<string>, direction: Direction)
    ensures multiset(SortRows(env, rows, activeKey, direction)) == multiset(rows)
  {
    if !NoKey(activeKey) {
      SortKeepsRows(Indexed(rows), TieBreak(CompareRows(env, activeKey, direction)));
      assert Rows(Indexed(rows)) == rows;
    }
  }

  // ---- The column comparator ----

  lemma CompareOpposed(env: Env, activeKey: Option<string>, direction: Direction)
    requires LocaleOrder(env)
    ensures Opposed(CompareRows(env, activeKey, direction))
  {
    if !NoKey(activeKey) {
      var cmp, key := CompareRows(env, activeKey, direction), activeKey.value;
      forall a, b ensures cmp(a, b) < 0.0 <==> cmp(b, a) > 0.0 {
        CellsOpposed(env, direction, Value(a, key), Value(b, key));
      }
    }
  }

  lemma CellsOpposed(env: Env, direction: Direction, a: Cell, b: Cell)
    requires LocaleOrder(env)
    ensures CompareCells(env, direction, a, b) < 0.0 <==> CompareCells(env, direction, b, a) > 0.0
  {
    var x, y := Image(env, a), Image(env, b);
    assert env.locale(x, y) < 0 <==> env.locale(y, x) > 0;
    assert env.locale(y, x) < 0 <==> env.locale(x, y) > 0;
  }

  ghost predicate AllNumbers(rows: seq<Row>, key: string) {
    forall r :: r in rows ==> Value(r, key).Null? || Value(r, key).Num?
  }

  ghost predicate NoNumbers(rows: seq<Row>, key: string) {
    forall r :: r in rows ==> !Value(r, key).Num?
  }

  /** Apart from empty cells, the column holds only numbers or no number at all. */
  ghost predicate Uniform(rows: seq<Row>, activeKey: Option<string>) {
    NoKey(activeKey) || AllNumbers(rows, activeKey.value) || NoNumbers(rows, activeKey.value)
  }

  lemma CellsTransitive(env: Env, direction: Direction, a: Cell, b: Cell, c: Cell)
    requires LocaleOrder(env)
    requires (!a.Num? && !b.Num? && !c.Num?) || ((a.Num? || a.Null?) && (b.Num? || b.Null?) && (c.Num? || c.Null?))
    requires CompareCells(env, direction, a, b) <= 0.0 && CompareCells(env, direction, b, c) <= 0.0
    ensures CompareCells(env, direction, a, c) <= 0.0
  {
    var x, y, z := Image(env, a), Image(env, b), Image(env, c);
    assert env.locale(x, y) < 0 <==> env.locale(y, x) > 0;
    assert env.locale(y, x) < 0 <==> env.locale(x, y) > 0;
    assert env.locale(y, z) < 0 <==> env.locale(z, y) > 0;
    assert env.locale(z, y) < 0 <==> env.locale(y, z) > 0;
    assert env.locale(x, z) < 0 <==> env.locale(z, x) > 0;
    assert env.locale(z, x) < 0 <==> env.locale(x, z) > 0;
    assert env.locale(z, y) <= 0 && env.locale(y, x) <= 0 ==> env.locale(z, x) <= 0;
  }

  lemma UniformPreorder(env: Env, rows: seq<Row>, activeKey: Option<string>, direction: Direction)
    requires LocaleOrder(env) && Uniform(rows, activeKey)
    ensures PreorderOn(rows, CompareRows(env, activeKey, direction))
  {
    if !NoKey(activeKey) {
      var cmp, key := CompareRows(env, activeKey, direction), activeKey.value;
      forall a, b, c | a in rows && b in rows && c in rows && cmp(a, b) <= 0.0 && cmp(b, c) <= 0.0 ensures cmp(a, c) <= 0.0 {
        hide LocaleOrder, CompareCells;
        CellsTransitive(env, direction, Value(a, key), Value(b, key), Value(c, key));
      }
    }
  }

  lemma PreorderTransitive<T(!new)>(rows: seq<T>, cmp: (T, T) -> real)
    requires Opposed(cmp) && PreorderOn(rows, cmp)
    ensures Transitive(rows, cmp)
  {
    forall x, y, z | 0 <= x < |rows| && 0 <= y < |rows| && 0 <= z < |rows| &&
      Before(rows, cmp, x, y) && Before(rows, cmp, y, z) ensures Before(rows, cmp, x, z)
    {
      var a, b, c := rows[x], rows[y], rows[z];
      assert cmp(a, c) <= 0.0;
      if cmp(a, c) == 0.0 {
        assert cmp(a, c) < 0.0 <==> cmp(c, a) > 0.0;
        assert cmp(c, a) < 0.0 <==> cmp(a, c) > 0.0;
        assert cmp(b, a) <= 0.0;
        assert cmp(a, b) < 0.0 <==> cmp(b, a) > 0.0;
        assert cmp(c, b) <= 0.0;
        assert cmp(b, c) < 0.0 <==> cmp(c, b) > 0.0;
      }
    }
  }

  /** In a uniform column the result is the one stable arrangement in order. */
  lemma SortRowsSorts(env: Env, rows: seq<Row>, activeKey: Option<string>, direction: Direction)
    requires LocaleOrder(env) && Uniform(rows, activeKey)
    ensures SortedBy(rows, SortRows(env, rows, activeKey, direction), CompareRows(env, activeKey, direction))
  {
    var cmp := CompareRows(env, activeKey, direction);
    if NoKey(activeKey) {
      var p := seq(|rows|, i => i);
      assert IsOrder(p, rows, cmp) && Arranges(p, rows, rows);
    } else {
      CompareOpposed(env, activeKey, direction);
      UniformPreorder(env, rows, activeKey, direction);
      PreorderTransitive(rows, cmp);
      SortedWhenTransitive(rows, cmp);
    }
  }

  /** Empty cells come last in both directions; the rest ascends or descends; ties keep their order. */
  lemma SortedColumn(env: Env, rows: seq<Row>, key: string, direction: Direction, i: int, j: int)
    requires LocaleOrder(env) && Uniform(rows, Some(key)) && key != "" && 0 <= i < j < |rows|
    ensures var out := SortRows(env, rows, Some(key), direction);
      |out| == |rows| &&
      var a, b := Value(out[i], key), Value(out[j], key);
      (a.Null? ==> b.Null?) &&
      (a.Num? && b.Num? ==> if direction.Asc? then a.n <= b.n else a.n >= b.n) &&
      (a.Str? && b.Str? ==> if direction.Asc? then env.locale(a.s, b.s) <= 0 else env.locale(a.s, b.s) >= 0) &&
      (a.Str? && b.Other? ==> if direction.Asc? then env.locale(a.s, b.image) <= 0 else env.locale(a.s, b.image) >= 0) &&
      (a.Other? && b.Str? ==> if direction.Asc? then env.locale(a.image, b.s) <= 0 else env.locale(a.image, b.s) >= 0) &&
      (a.Other? && b.Other? ==> if direction.Asc? then env.locale(a.image, b.image) <= 0 else env.locale(a.image, b.image) >= 0)
  {
    var out, cmp := SortRows(env, rows, Some(key), direction), CompareRows(env, Some(key), direction);
    SortRowsSorts(env, rows, Some(key), direction);
    var p :| IsOrder(p, rows, cmp) && Arranges(p, rows, out);
    assert Before(rows, cmp, p[i], p[j]);
  }

  /** Without a column the rows stay as they are. */
  lemma NoColumnNoSort(env: Env, rows: seq<Row>, direction: Direction)
    ensures SortRows(env, rows, None, direction) == rows && SortRows(env, rows, Some(""), direction) == rows
  {
  }

  // ---- Sorting by one column and then by another ----

  function Lexicographic<T>(first: (T, T) -> real, second: (T, T) -> real): (T, T) -> real {
    (a: T, b: T) => if first(a, b) == 0.0 then second(a, b) else first(a, b)
  }

  lemma LexicographicOpposed<T(!new)>(first: (T, T) -> real, second: (T, T) -> real)
    requires Opposed(first) && Opposed(second)
    ensures Opposed(Lexicographic(first, second))
  {
    var lex := Lexicographic(first, second);
    forall a, b ensures lex(a, b) < 0.0 <==> lex(b, a) > 0.0 {
      assert first(a, b) < 0.0 <==> first(b, a) > 0.0;
      assert first(b, a) < 0.0 <==> first(a, b) > 0.0;
      assert second(a, b) < 0.0 <==> second(b, a) > 0.0;
    }
  }

  lemma SortedTwice<T>(rows: seq<T>, mid: seq<T>, out: seq<T>, first: (T, T) -> real, second: (T, T) -> real)
    requires SortedBy(rows, mid, second) && SortedBy(mid, out, first)
    ensures SortedBy(rows, out, Lexicographic(first, second))
  {
    var p :| IsOrder(p, rows, second) && Arranges(p, rows, mid);
    var q :| IsOrder(q, mid, first) && Arranges(q, mid, out);
    var r := seq(|q|, i requires 0 <= i < |q| => p[q[i]]);
    var lex := Lexicographic(first, second);
    forall i, j | 0 <= i < j < |r| ensures r[i] != r[j] && Before(rows, lex, r[i], r[j]) {
      assert Before(mid, first, q[i], q[j]);
      if q[i] < q[j] {
        assert Before(rows, second, p[q[i]], p[q[j]]);
      }
    }
    assert IsOrder(r, rows, lex) && Arranges(r, rows, out);
  }

  /** Sorting by k2 and then by k1 gives the lexicographic (k1, k2) order, input order on full ties. */
  lemma TwoKeySort(env: Env, rows: seq<Row>, k1: Option<string>, d1: Direction, k2: Option<string>, d2: Direction)
    requires LocaleOrder(env) && Uniform(rows, k1) && Uniform(rows, k2)
    ensures var out := SortRows(env, SortRows(env, rows, k2, d2), k1, d1);
      var lex := Lexicographic(CompareRows(env, k1, d1), CompareRows(env, k2, d2));
      SortedBy(rows, out, lex) && forall any :: SortedBy(rows, any, lex) ==> any == out
  {
    var mid := SortRows(env, rows, k2, d2);
    var first, second := CompareRows(env, k1, d1), CompareRows(env, k2, d2);
    SortRowsSorts(env, rows, k2, d2);
    SortRowsPermutes(env, rows, k2, d2);
    forall r | r in mid ensures r in rows {
      assert r in multiset(mid);
    }
    SortRowsSorts(env, mid, k1, d1);
    var out := SortRows(env, mid, k1, d1);
    SortedTwice(rows, mid, out, first, second);
    CompareOpposed(env, k1, d1);
    CompareOpposed(env, k2, d2);
    LexicographicOpposed(first, second);
    forall any | SortedBy(rows, any, Lexicographic(first, second)) ensures any == out {
      SortedIsUnique(rows, any, out, Lexicographic(first, second));
    }
  }

  /** In a mixed column the comparator can run in a circle, and then no arrangement is sorted. */
  lemma MixedColumnHasNoOrder(env: Env)
    requires LocaleOrder(env) && env.text(9.0) == "9" && env.text(10.0) == "10"
    requires env.locale("10", "1a") < 0 && env.locale("1a", "9") < 0
    ensures var rows := [map["n" := Num(9.0)], map["n" := Num(10.0)], map["n" := Str("1a")]];
      forall out :: !SortedBy(rows, out, CompareRows(env, Some("n"), Asc))
  {
    var rows, cmp := [map["n" := Num(9.0)], map["n" := Num(10.0)], map["n" := Str("1a")]], CompareRows(env, Some("n"), Asc);
    CompareOpposed(env, Some("n"), Asc);
    assert Value(rows[0], "n") == Num(9.0) && Value(rows[1], "n") == Num(10.0) && Value(rows[2], "n") == Str("1a");
    assert Before(rows, cmp, 0, 1) && Before(rows, cmp, 1, 2) && Before(rows, cmp, 2, 0);
    forall out ensures !SortedBy(rows, out, cmp) {
      if SortedBy(rows, out, cmp) {
        var p :| IsOrder(p, rows, cmp) && Arranges(p, rows, out);
        OrderIsTransitive(p, rows, cmp);
      }
    }
  }

  // ---- Which column and which direction ----

  datatype SortState = SortState(activeKey: Option<string>, direction: Direction, defaultDirection: Direction)

  datatype Column = Column(key: string, defaultDirection: Option<Direction>)

  const INITIAL_SORT_STATE := SortState(None, Asc, Asc)

  function Find(columns: seq<Column>, key: string): Option<Column> {
    if columns == [] then None else if columns[0].key == key then Some(columns[0]) else Find(columns[1..], key)
  }

  function Configured(columns: seq<Column>, key: string): Option<Direction> {
    match Find(columns, key)
    case Some(c) => c.defaultDirection
    case None => None
  }

  function SortReducer(state: SortState, key: string, columns: seq<Column>): SortState {
    var columnDefault := Configured(columns, key).GetOr(state.defaultDirection);
    if state.activeKey == Some(key) then state.(direction := Flip(state.direction))
    else SortState(Some(key), columnDefault, columnDefault)
  }

  function AfterClicks(clicks: seq<string>, columns: seq<Column>): SortState {
    if clicks == [] then INITIAL_SORT_STATE
    else SortReducer(AfterClicks(clicks[..|clicks| - 1], columns), clicks[|clicks| - 1], columns)
  }

  ghost predicate IsLatest(d: Direction, clicks: seq<string>, columns: seq<Column>, i: nat)
    requires i < |clicks|
  {
    Configured(columns, clicks[i]) == Some(d) && forall j :: i < j < |clicks| ==> Configured(columns, clicks[j]).None?
  }

  /** The direction configured for the latest clicked column that has one; ascending if none has. */
  ghost predicate LatestDefault(d: Direction, clicks: seq<string>, columns: seq<Column>) {
    (exists i :: 0 <= i < |clicks| && IsLatest(d, clicks, columns, i)) ||
    (d == Asc && forall i :: 0 <= i < |clicks| ==> Configured(columns, clicks[i]).None?)
  }

  /** The last n clicks, and no more, were on the same column. */
  ghost predicate ClickedInARow(clicks: seq<string>, n: nat) {
    0 < n <= |clicks| &&
    (forall i :: |clicks| - n <= i < |clicks| ==> clicks[i] == clicks[|clicks| - 1]) &&
    (n < |clicks| ==> clicks[|clicks| - n - 1] != clicks[|clicks| - 1])
  }

  /** After any clicks the last column is active, and its direction turns with every further click on it. */
  lemma {:induction false} ClicksDecide(clicks: seq<string>, columns: seq<Column>, n: nat)
    requires ClickedInARow(clicks, n)
    ensures var s := AfterClicks(clicks, columns);
      s.activeKey == Some(clicks[|clicks| - 1]) &&
      LatestDefault(s.defaultDirection, clicks, columns) &&
      (s.direction == s.defaultDirection <==> n % 2 == 1)
  {
    var k := |clicks| - 1;
    var before, key := clicks[..k], clicks[k];
    var s := AfterClicks(before, columns);
    if before == [] {
      LatestDefaultStep([], columns, key, Asc);
      assert [] + [key] == clicks;
    } else {
      if n > 1 {
        ClicksDecide(before, columns, n - 1);
        assert s.activeKey == Some(key);
        var d := s.defaultDirection;
        LatestDefaultStep(before, columns, key, d);
        SameDefault(before, columns, d);
      } else {
        var m := InARow(before);
        ClicksDecide(before, columns, m);
        LatestDefaultStep(before, columns, key, s.defaultDirection);
      }
      assert before + [key] == clicks;
    }
  }

  /** Clicking a column leaves its own configured default as the latest, or the earlier one. */
  lemma LatestDefaultStep(before: seq<string>, columns: seq<Column>, key: string, d: Direction)
    requires LatestDefault(d, before, columns)
    ensures LatestDefault(Configured(columns, key).GetOr(d), before + [key], columns)
  {
    var clicks := before + [key];
    assert clicks[|before|] == key;
    assert forall i :: 0 <= i < |before| ==> clicks[i] == before[i];
    if Configured(columns, key).Some? {
      assert IsLatest(Configured(columns, key).value, clicks, columns, |before|);
    } else if exists i :: 0 <= i < |before| && IsLatest(d, before, columns, i) {
      var i :| 0 <= i < |before| && IsLatest(d, before, columns, i);
      assert IsLatest(d, clicks, columns, i);
    }
  }

  lemma SameDefault(clicks: seq<string>, columns: seq<Column>, d: Direction)
    requires clicks != [] && LatestDefault(d, clicks, columns)
    ensures Configured(columns, clicks[|clicks| - 1]).GetOr(d) == d
  {
  }

  lemma {:induction false} InARow(clicks: seq<string>) returns (n: nat)
    requires clicks != []
    ensures ClickedInARow(clicks, n)
  {
    var k := |clicks| - 1;
    if k == 0 || clicks[k - 1] != clicks[k] {
      n := 1;
    } else {
      var m := InARow(clicks[..k]);
      n := m + 1;
    }
  }
}
