/**
  The backfill of stable chapter ids:
  backend/alembic/versions/2026-08-06_c7a8b9d0e1f2_add_stable_chapter_identity.py.
 */
module ChapterIdentity {
  import opened Options
  import opened Decimal

  newtype int32 = x: int | -0x8000_0000 <= x < 0x8000_0000

  /** A row without its primary key; `logical` is the column the migration adds. */
  datatype Chapter = Chapter(novel: int32, number: Option<int32>, logical: Option<string>)

  type Chapters = map<int32, Chapter>

  /** `CAST(n AS VARCHAR(32))`: the decimal text, cut to 32 characters. */
  function VarChar32(n: int32): string {
    var s := OfInt(n as int);
    if |s| <= 32 then s else s[..32]
  }

  predicate Unfilled(rows: Chapters, id: int32)
    requires id in rows
  {
    rows[id].logical.None?
  }

  predicate SameGroup(rows: Chapters, i: int32, j: int32)
    requires i in rows && j in rows
  {
    rows[i].novel == rows[j].novel && rows[i].number == rows[j].number
  }

  /** The unfilled row with the lowest id among those with its novel and chapter number. */
  predicate IsFirst(rows: Chapters, id: int32)
    requires id in rows
  {
    Unfilled(rows, id) && rows[id].number.Some? && forall j :: j in rows && Unfilled(rows, j) && SameGroup(rows, id, j) ==> id <= j
  }

  /** What the two updates make of a row. */
  function BackfilledId(rows: Chapters, id: int32): string
    requires id in rows
  {
    match rows[id].logical
    case Some(l) => l
    case None => if IsFirst(rows, id) then VarChar32(rows[id].number.value) else "legacy-" + VarChar32(id)
  }

  predicate AllFilled(rows: Chapters) {
    forall id :: id in rows ==> rows[id].logical.Some?
  }

  predicate UniqueIds(rows: Chapters) {
    forall i, j :: i in rows && j in rows && i != j && rows[i].novel == rows[j].novel && rows[i].logical.Some? ==> rows[i].logical != rows[j].logical
  }

  // ---- Distinct ids ----

  /** The cast never cuts a 32-bit number. */
  lemma NothingIsCut()
    ensures forall n: int32 {:trigger VarChar32(n)} {:trigger OfInt(n as int)} :: VarChar32(n) == OfInt(n as int)
  {
    forall n: int32 ensures VarChar32(n) == OfInt(n as int) {
      Int32Length(n as int);
    }
  }

  lemma VarChar32Injective(m: int32, n: int32)
    requires VarChar32(m) == VarChar32(n)
    ensures m == n
  {
    Int32Length(m as int);
    Int32Length(n as int);
    OfIntInjective(m as int, n as int);
  }

  lemma NumberIsNotLegacy(m: int32, n: int32)
    ensures VarChar32(m) != "legacy-" + VarChar32(n)
  {
    Int32Length(m as int);
    assert VarChar32(m)[0] == OfInt(m as int)[0];
    assert ("legacy-" + VarChar32(n))[0] == 'l';
  }

  lemma LegacyInjective(m: int32, n: int32)
    requires "legacy-" + VarChar32(m) == "legacy-" + VarChar32(n)
    ensures m == n
  {
    var p := "legacy-";
    assert (p + VarChar32(m))[|p|..] == VarChar32(m);
    assert (p + VarChar32(n))[|p|..] == VarChar32(n);
    VarChar32Injective(m, n);
  }

  /** Two unfilled rows of one novel never get the same id, whatever their chapter numbers. */
  lemma NewIdsDiffer(rows: Chapters, i: int32, j: int32)
    requires i in rows && j in rows && i != j && rows[i].novel == rows[j].novel && Unfilled(rows, i) && Unfilled(rows, j)
    ensures BackfilledId(rows, i) != BackfilledId(rows, j)
  {
    if BackfilledId(rows, i) == BackfilledId(rows, j) {
      if IsFirst(rows, i) && IsFirst(rows, j) {
        VarChar32Injective(rows[i].number.value, rows[j].number.value);
        assert SameGroup(rows, i, j) && SameGroup(rows, j, i);
      } else if IsFirst(rows, i) {
        NumberIsNotLegacy(rows[i].number.value, j);
      } else if IsFirst(rows, j) {
        NumberIsNotLegacy(rows[j].number.value, i);
      } else {
        LegacyInjective(i, j);
      }
    }
  }

  lemma {:induction false} LowestExists(s: set<int32>) returns (m: int32)
    requires s != {}
    ensures m in s && forall x :: x in s ==> m <= x
  {
    var a :| a in s;
    if s == {a} {
      m := a;
    } else {
      var b := LowestExists(s - {a});
      m := if a < b then a else b;
      forall x | x in s ensures m <= x {
        assert x == a || x in s - {a};
      }
    }
  }

  /** Every (novel, number) group with unfilled rows has exactly one row that takes the number as its id. */
  lemma FirstOfGroup(rows: Chapters, id: int32) returns (first: int32)
    requires id in rows && Unfilled(rows, id) && rows[id].number.Some?
    ensures first in rows && SameGroup(rows, id, first) && IsFirst(rows, first)
    ensures forall j :: j in rows && SameGroup(rows, id, j) && IsFirst(rows, j) ==> j == first
  {
    var group := set j | j in rows && Unfilled(rows, j) && SameGroup(rows, id, j);
    assert id in group;
    first := LowestExists(group);
    forall j | j in rows && Unfilled(rows, j) && SameGroup(rows, first, j) ensures first <= j {
      assert j in group;
    }
    assert IsFirst(rows, first);
    forall j | j in rows && SameGroup(rows, id, j) && IsFirst(rows, j) ensures j == first {
      assert SameGroup(rows, j, first) && SameGroup(rows, first, j);
    }
  }

  /** An unfilled row gets its chapter number as id exactly when it is the lowest of its group. */
  lemma FirstKeepsNumber(rows: Chapters, id: int32)
    requires id in rows && Unfilled(rows, id) && rows[id].number.Some?
    ensures BackfilledId(rows, id) == VarChar32(rows[id].number.value) <==> IsFirst(rows, id)
  {
    NumberIsNotLegacy(rows[id].number.value, id);
  }

  // ---- Tables that already hold some ids ----

  /** The filled id `l` is one that the updates will give to an unfilled row of the novel. */
  predicate Taken(rows: Chapters, novel: int32, l: string) {
    exists j :: j in rows && Unfilled(rows, j) && rows[j].novel == novel &&
      ((rows[j].number.Some? && l == VarChar32(rows[j].number.value)) || (!IsFirst(rows, j) && l == "legacy-" + VarChar32(j)))
  }

  ghost predicate ReadyToFill(rows: Chapters) {
    UniqueIds(rows) && forall i :: i in rows && rows[i].logical.Some? ==> !Taken(rows, rows[i].novel, rows[i].logical.value)
  }

  function Backfilled(rows: Chapters): Chapters {
    map id | id in rows :: rows[id].(logical := Some(BackfilledId(rows, id)))
  }

  lemma TakenIff(rows: Chapters, novel: int32, l: string)
    ensures Taken(rows, novel, l) <==> exists j :: j in rows && Unfilled(rows, j) && rows[j].novel == novel && BackfilledId(rows, j) == l
  {
    forall j | j in rows && Unfilled(rows, j) && rows[j].novel == novel && rows[j].number.Some? && l == VarChar32(rows[j].number.value)
      ensures exists k :: k in rows && Unfilled(rows, k) && rows[k].novel == novel && BackfilledId(rows, k) == l
    {
      var k := FirstOfGroup(rows, j);
      assert BackfilledId(rows, k) == l;
    }
  }

  /** The updates leave unique ids exactly when no filled id is repeated or about to be given again. */
  lemma UniqueIff(rows: Chapters)
    ensures UniqueIds(Backfilled(rows)) <==> ReadyToFill(rows)
  {
    var done := Backfilled(rows);
    if UniqueIds(done) {
      forall i | i in rows && rows[i].logical.Some? ensures !Taken(rows, rows[i].novel, rows[i].logical.value) {
        TakenIff(rows, rows[i].novel, rows[i].logical.value);
        forall j | j in rows && Unfilled(rows, j) && rows[j].novel == rows[i].novel ensures BackfilledId(rows, j) != rows[i].logical.value {
          assert done[i].logical != done[j].logical;
        }
      }
      forall i, j | i in rows && j in rows && i != j && rows[i].novel == rows[j].novel && rows[i].logical.Some?
        ensures rows[i].logical != rows[j].logical
      {
        assert done[i].logical != done[j].logical;
      }
    }
    if ReadyToFill(rows) {
      forall i, j | i in rows && j in rows && i != j && rows[i].novel == rows[j].novel
        ensures BackfilledId(rows, i) != BackfilledId(rows, j)
      {
        if Unfilled(rows, i) && Unfilled(rows, j) {
          NewIdsDiffer(rows, i, j);
        } else if rows[i].logical.Some? {
          TakenIff(rows, rows[i].novel, rows[i].logical.value);
        } else {
          TakenIff(rows, rows[j].novel, rows[j].logical.value);
        }
      }
    }
  }

  /** A freshly added column is ready to fill whatever the chapter numbers are. */
  lemma EmptyColumnIsReady(rows: Chapters)
    requires forall id :: id in rows ==> Unfilled(rows, id)
    ensures UniqueIds(Backfilled(rows))
  {
    UniqueIff(rows);
  }

  // ---- The migration ----

  class Table {
    var rows: Chapters
    var notNull: bool
    var unique: bool

    constructor (rows: Chapters)
      ensures this.rows == rows && !notNull && !unique
    {
      this.rows := rows;
      notNull, unique := false, false;
    }

    method AddColumn()
      modifies this`rows
      ensures rows.Keys == old(rows.Keys)
      ensures forall id :: id in rows ==> rows[id] == old(rows)[id].(logical := None)
    {
      rows := map id | id in rows :: rows[id].(logical := None);
    }

    /** The first update; `firsts` is its subquery, the lowest id of every group. */
    method FillFromNumbers()
      modifies this`rows
      ensures rows.Keys == old(rows.Keys)
      ensures forall id :: id in rows ==>
        rows[id] == old(rows)[id].(logical := if IsFirst(old(rows), id) then Some(VarChar32(old(rows)[id].number.value)) else old(rows)[id].logical)
    {
      var firsts := set id | id in rows && IsFirst(rows, id);
      rows := map id | id in rows :: if Unfilled(rows, id) && id in firsts then rows[id].(logical := Some(VarChar32(rows[id].number.value))) else rows[id];
    }

    /** The second update. */
    method FillFromKeys()
      modifies this`rows
      ensures rows.Keys == old(rows.Keys)
      ensures forall id :: id in rows ==>
        rows[id] == old(rows)[id].(logical := if Unfilled(old(rows), id) then Some("legacy-" + VarChar32(id)) else old(rows)[id].logical)
    {
      rows := map id | id in rows :: if Unfilled(rows, id) then rows[id].(logical := Some("legacy-" + VarChar32(id))) else rows[id];
    }

    method Backfill()
      modifies this`rows
      ensures rows == Backfilled(old(rows))
    {
      FillFromNumbers();
      FillFromKeys();
    }

    /** Fails, as the database does, when a row holds no id. */
    method AddNotNull() returns (ok: bool)
      modifies this`notNull
      ensures ok == notNull == AllFilled(rows)
    {
      ok := AllFilled(rows);
      notNull := ok;
    }

    /** Fails, as the database does, when two rows share a novel and an id. */
    method CreateUniqueIndex() returns (ok: bool)
      modifies this`unique
      ensures ok == unique == UniqueIds(rows)
    {
      ok := UniqueIds(rows);
      unique := ok;
    }

    /** From any rows both constraints can be added, and only the new column is written. */
    method Upgrade() returns (ok: bool)
      modifies this
      ensures ok && notNull && unique
      ensures rows.Keys == old(rows.Keys) && UniqueIds(rows)
      ensures forall id :: id in rows ==>
        rows[id].novel == old(rows)[id].novel && rows[id].number == old(rows)[id].number && rows[id].logical.Some?
      ensures forall id :: id in rows && rows[id].number.Some? ==>
        (rows[id].logical.value == OfInt(rows[id].number.value as int) <==>
         forall j :: j in rows && rows[j].novel == rows[id].novel && rows[j].number == rows[id].number ==> id <= j)
      ensures forall id :: id in rows && rows[id].logical.value != "legacy-" + OfInt(id as int) ==>
        rows[id].number.Some? && rows[id].logical.value == OfInt(rows[id].number.value as int)
    {
      NothingIsCut();
      AddColumn();
      ghost var empty := rows;
      Backfill();
      EmptyColumnIsReady(empty);
      forall id | id in rows && rows[id].number.Some?
        ensures rows[id].logical.value == VarChar32(rows[id].number.value) <==>
          forall j :: j in rows && rows[j].novel == rows[id].novel && rows[j].number == rows[id].number ==> id <= j
      {
        FirstKeepsNumber(empty, id);
        GroupsStay(empty, id);
      }
      ok := AddNotNull();
      if ok {
        ok := CreateUniqueIndex();
      }
    }

    /** Removing the column gives the table back as it was before the upgrade. */
    method Downgrade()
      modifies this
      ensures !notNull && !unique && rows.Keys == old(rows.Keys)
      ensures forall id :: id in rows ==> rows[id] == old(rows)[id].(logical := None)
    {
      unique, notNull := false, false;
      AddColumn();
    }
  }

  lemma GroupsStay(rows: Chapters, id: int32)
    requires id in rows && Unfilled(rows, id) && rows[id].number.Some? && forall j :: j in rows ==> Unfilled(rows, j)
    ensures IsFirst(rows, id) <==> forall j :: j in Backfilled(rows) && SameGroup(Backfilled(rows), id, j) ==> id <= j
  {
    assert forall j :: j in rows ==> (SameGroup(Backfilled(rows), id, j) <==> SameGroup(rows, id, j));
  }
}
