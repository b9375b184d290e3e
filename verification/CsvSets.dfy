/** The comma-separated lists in which the catalog page keeps sets of names in its URL. */
module CsvSets {
  import opened Options
  import opened Text

  /** The trimmed non-empty pieces of a comma-separated text. */
  function Pieces(raw: string): set<string> {
    set part | part in Split(raw, ',') && Trim(part, JsSpace) != "" :: Trim(part, JsSpace)
  }

  function ParseCsv(raw: Option<string>): set<string> {
    if raw.None? || raw.value == "" then {} else Pieces(raw.value)
  }

  function SerializeSet(s: set<string>): Option<string> {
    if s == {} then None else Some(Join(Sorted(s), ","))
  }

  /** What survives a round trip through the URL: no comma, no white space at either end, not empty. */
  predicate Clean(name: string) {
    name != "" && ',' !in name && Trimmed(name, JsSpace)
  }

  lemma ParsedAreClean(raw: Option<string>)
    ensures forall name :: name in ParseCsv(raw) ==> Clean(name)
  {
  }

  lemma PieceOf(raw: string, piece: string)
    ensures piece in Pieces(raw) <==> piece != "" && exists part :: part in Split(raw, ',') && Trim(part, JsSpace) == piece
  {
  }

  lemma CleanIsOnePiece(name: string)
    requires Clean(name)
    ensures Pieces(name) == {name}
  {
    SplitWithout(name, ',');
    assert name in [name];
    forall piece ensures piece in Pieces(name) <==> piece == name {
      PieceOf(name, piece);
    }
  }

  /** A comma separates the pieces on its left from those on its right. */
  lemma PiecesAround(a: string, b: string)
    ensures Pieces(a + "," + b) == Pieces(a) + Pieces(b)
  {
    SplitAtSeparator(a, ',', b);
    hide Split, Trim, JsSpace;
    forall piece ensures piece in Pieces(a + "," + b) <==> piece in Pieces(a) + Pieces(b) {
      assert forall part :: part in Split(a, ',') + Split(b, ',') <==> part in Split(a, ',') || part in Split(b, ',');
    }
  }

  lemma JoinFront(names: seq<string>)
    requires |names| > 1
    ensures Join(names, ",") == names[0] + "," + Join(names[1..], ",")
  {
  }

  lemma {:induction false} JoinedPieces(names: seq<string>, piece: string)
    requires names != []
    ensures piece in Pieces(Join(names, ",")) <==> exists name :: name in names && piece in Pieces(name)
  {
    if |names| == 1 {
      assert names == [names[0]];
    } else {
      hide Join, Pieces;
      JoinFront(names);
      PiecesAround(names[0], Join(names[1..], ","));
      JoinedPieces(names[1..], piece);
      InFront(names);
    }
  }

  lemma InFront(names: seq<string>)
    requires names != []
    ensures forall name :: name in names <==> name == names[0] || name in names[1..]
  {
    assert names == [names[0]] + names[1..];
  }

  /** Writing a set and reading it back gives the pieces of its members. */
  lemma ParseSerialized(s: set<string>)
    ensures ParseCsv(SerializeSet(s)) == set name, piece | name in s && piece in Pieces(name) :: piece
  {
    if s != {} {
      forall piece ensures piece in Pieces(Join(Sorted(s), ",")) <==> exists name :: name in s && piece in Pieces(name) {
        JoinedPieces(Sorted(s), piece);
      }
    }
  }

  /** A set survives the round trip exactly when all its members are clean. */
  lemma SetRoundTrip(s: set<string>)
    ensures ParseCsv(SerializeSet(s)) == s <==> forall name :: name in s ==> Clean(name)
  {
    ParseSerialized(s);
    ParsedAreClean(SerializeSet(s));
    if forall name :: name in s ==> Clean(name) {
      forall name | name in s ensures Pieces(name) == {name} {
        CleanIsOnePiece(name);
      }
    }
  }

  /** The texts that `SerializeSet` writes: clean names in strictly ascending order. */
  predicate IsSortedCsv(raw: string) {
    var names := Split(raw, ',');
    StrictlySorted(names) && forall i :: 0 <= i < |names| ==> Clean(names[i])
  }

  lemma WrittenIsSorted(s: set<string>)
    requires s != {} && forall name :: name in s ==> Clean(name)
    ensures IsSortedCsv(Join(Sorted(s), ","))
  {
    SortedAscends(s);
    assert Sorted(s) != [];
    forall i | 0 <= i < |Sorted(s)| ensures Clean(Sorted(s)[i]) {
      assert Sorted(s)[i] in Sorted(s);
    }
    hide Sorted, StringLe;
    SplitJoin(Sorted(s), ',');
  }

  lemma SortedIsWritten(raw: string)
    requires IsSortedCsv(raw)
    ensures SerializeSet(ParseCsv(Some(raw))) == Some(raw)
  {
    var names, s := Split(raw, ','), ParseCsv(Some(raw));
    hide JsSpace, StringLe, Sorted, Split;
    JoinSplit(raw, ',');
    assert Clean(names[0]);
    forall x ensures x in names <==> x in s {
      if x in names { assert Trim(x, JsSpace) == x; }
    }
    SortedAscends(s);
    AscendingIsUnique(Sorted(s), names);
    assert names[0] in s;
  }

  /** A text survives reading and writing back exactly when it is such a list. */
  lemma TextRoundTrip(raw: Option<string>)
    ensures SerializeSet(ParseCsv(raw)) == raw <==> raw.None? || IsSortedCsv(raw.value)
  {
    hide IsSortedCsv, Clean;
    if raw.Some? {
      ParsedAreClean(raw);
      if ParseCsv(raw) != {} {
        WrittenIsSorted(ParseCsv(raw));
      }
      if IsSortedCsv(raw.value) {
        SortedIsWritten(raw.value);
      }
    }
  }
}
