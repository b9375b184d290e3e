/**
  Strings as JavaScript and Python handle them in this program: trimming white space, splitting at a
  character, joining with a separator, and the order of a default sort.
 */
module Text {
  /** What `String.prototype.trim` removes. */
  predicate JsSpace(c: char) {
    c in "\t\n\r " || c == '\U{0B}' || c == '\U{0C}' || c == '\U{A0}' || c == '\U{FEFF}' || UnicodeSpace(c)
  }

  /** What `str.strip` and `str.isspace` count as white space. */
  predicate PySpace(c: char) {
    c in "\t\n\r " || c == '\U{0B}' || c == '\U{0C}' || '\U{1C}' <= c <= '\U{1F}' || c == '\U{85}' || c == '\U{A0}' || UnicodeSpace(c)
  }

  predicate UnicodeSpace(c: char) {
    c == '\U{1680}' || '\U{2000}' <= c <= '\U{200A}' || c == '\U{2028}' || c == '\U{2029}' || c == '\U{202F}' ||
    c == '\U{205F}' || c == '\U{3000}'
  }

  function TrimLeft(s: string, space: char -> bool): (r: string)
    ensures r != [] ==> !space(r[0])
    ensures |r| <= |s| && r == s[|s| - |r|..]
    ensures forall i :: 0 <= i < |s| - |r| ==> space(s[i])
  {
    if s != [] && space(s[0]) then TrimLeft(s[1..], space) else s
  }

  function TrimRight(s: string, space: char -> bool): (r: string)
    ensures r != [] ==> !space(r[|r| - 1])
    ensures |r| <= |s| && r == s[..|r|]
    ensures forall i :: |r| <= i < |s| ==> space(s[i])
  {
    if s != [] && space(s[|s| - 1]) then TrimRight(s[..|s| - 1], space) else s
  }

  predicate Trimmed(s: string, space: char -> bool) {
    s != [] ==> !space(s[0]) && !space(s[|s| - 1])
  }

  function Trim(s: string, space: char -> bool): (r: string)
    ensures Trimmed(r, space)
    ensures |r| <= |s| && forall c :: c in r ==> c in s
    ensures r == s <==> Trimmed(s, space)
  {
    TrimRight(TrimLeft(s, space), space)
  }

  /** Lower case for the 26 English letters; every other character is left alone. */
  function Lower(s: string): (r: string)
    ensures |r| == |s| && forall i :: 0 <= i < |s| ==> r[i] == if 'A' <= s[i] <= 'Z' then (s[i] as int + 32) as char else s[i]
  {
    seq(|s|, i requires 0 <= i < |s| => if 'A' <= s[i] <= 'Z' then (s[i] as int + 32) as char else s[i])
  }

  /** At least one part; the separator is in none of them. */
  function Split(s: string, sep: char): (parts: seq<string>)
    ensures parts != [] && forall i :: 0 <= i < |parts| ==> sep !in parts[i]
  {
    if s == [] then [""]
    else if s[0] == sep then [""] + Split(s[1..], sep)
    else
      var rest := Split(s[1..], sep);
      [[s[0]] + rest[0]] + rest[1..]
  }

  function Join(parts: seq<string>, sep: string): string {
    if parts == [] then "" else if |parts| == 1 then parts[0] else parts[0] + sep + Join(parts[1..], sep)
  }

  lemma SplitHead(s: string, sep: char)
    requires s != []
    ensures var rest := Split(s[1..], sep);
      Split(s, sep) == if s[0] == sep then [""] + rest else [[s[0]] + rest[0]] + rest[1..]
  {
  }

  lemma SplitNothing(sep: char)
    ensures Split("", sep) == [""]
  {
  }

  /** Splitting what was joined with the separator splits each part. */
  lemma {:induction false} SplitAtSeparator(a: string, sep: char, b: string)
    ensures Split(a + [sep] + b, sep) == Split(a, sep) + Split(b, sep)
  {
    hide Split;
    var s := a + [sep] + b;
    SplitHead(s, sep);
    if a == [] {
      SplitNothing(sep);
      assert s[0] == sep && s[1..] == b;
    } else {
      var a' := a[1..];
      assert s[1..] == a' + [sep] + b && s[0] == a[0];
      SplitAtSeparator(a', sep, b);
      SplitHead(a, sep);
      PutInFront(s[0], sep, Split(a', sep), Split(b, sep));
    }
  }

  lemma PutInFront(c: char, sep: char, parts: seq<string>, more: seq<string>)
    requires parts != []
    ensures var all := parts + more;
      (if c == sep then [""] + all else [[c] + all[0]] + all[1..]) ==
      (if c == sep then [""] + parts else [[c] + parts[0]] + parts[1..]) + more
  {
    HeadOfConcat(parts, more);
  }

  lemma HeadOfConcat<T>(a: seq<T>, b: seq<T>)
    requires a != []
    ensures (a + b)[0] == a[0] && (a + b)[1..] == a[1..] + b
  {
  }

  lemma {:induction false} SplitWithout(s: string, sep: char)
    requires sep !in s
    ensures Split(s, sep) == [s]
  {
    if s != [] {
      assert s[0] in s;
      SplitWithout(s[1..], sep);
      assert [s[0]] + s[1..] == s;
    }
  }

  lemma {:induction false} SplitJoin(parts: seq<string>, sep: char)
    requires parts != [] && forall i :: 0 <= i < |parts| ==> sep !in parts[i]
    ensures Split(Join(parts, [sep]), sep) == parts
  {
    SplitWithout(parts[0], sep);
    if |parts| > 1 {
      SplitAtSeparator(parts[0], sep, Join(parts[1..], [sep]));
      SplitJoin(parts[1..], sep);
    }
  }

  lemma {:induction false} JoinSplit(s: string, sep: char)
    ensures Join(Split(s, sep), [sep]) == s
  {
    if s != [] {
      JoinSplit(s[1..], sep);
      var rest := Split(s[1..], sep);
      if s[0] == sep {
        assert Split(s, sep)[1..] == rest;
      } else if |rest| > 1 {
        assert Split(s, sep)[1..] == rest[1..];
      }
    }
  }

  // ---- The order of UTF-16 code units ----

  /** The place of a character in the order of UTF-16 code units: a character beyond the basic plane
      starts with a surrogate, and so comes before the characters from U+E000 on. */
  function Utf16Rank(c: char): int {
    if '\U{E000}' <= c <= '\U{FFFF}' then c as int + 0x110000 else c as int
  }

  /** The number of UTF-16 code units: the `length` of a JavaScript string. */
  function Utf16Length(s: string): (n: nat)
    ensures |s| <= n <= 2 * |s|
  {
    if s == [] then 0 else (if s[0] > '\U{FFFF}' then 2 else 1) + Utf16Length(s[1..])
  }

  predicate StringLe(a: string, b: string) {
    a == [] || (b != [] && (Utf16Rank(a[0]) < Utf16Rank(b[0]) || (a[0] == b[0] && StringLe(a[1..], b[1..]))))
  }

  /** Single characters are ordered by code point, save that those beyond the basic plane come before the
      end of the basic plane; a character beyond it counts for two. */
  lemma Utf16Characters(c: char, d: char)
    ensures StringLe([c], [d]) <==>
      if c > '\U{FFFF}' && '\U{E000}' <= d <= '\U{FFFF}' then true
      else if d > '\U{FFFF}' && '\U{E000}' <= c <= '\U{FFFF}' then false
      else c <= d
    ensures Utf16Length([c]) == if c > '\U{FFFF}' then 2 else 1
  {
    assert [c][1..] == [] && [d][1..] == [];
  }

  lemma {:induction false} Utf16LengthOfConcat(a: string, b: string)
    ensures Utf16Length(a + b) == Utf16Length(a) + Utf16Length(b)
  {
    if a == [] {
      assert a + b == b;
    } else {
      assert (a + b)[1..] == a[1..] + b;
      Utf16LengthOfConcat(a[1..], b);
    }
  }

  lemma StringLeTotal(a: string, b: string)
    ensures StringLe(a, b) || StringLe(b, a)
  {
  }

  lemma {:induction false} StringLeAntisymmetric(a: string, b: string)
    requires StringLe(a, b) && StringLe(b, a)
    ensures a == b
  {
    if a != [] {
      StringLeAntisymmetric(a[1..], b[1..]);
    }
  }

  lemma {:induction false} StringLeTransitive(a: string, b: string, c: string)
    requires StringLe(a, b) && StringLe(b, c)
    ensures StringLe(a, c)
  {
    if a != [] && a[0] == b[0] == c[0] {
      StringLeTransitive(a[1..], b[1..], c[1..]);
    }
  }

  predicate IsLeast(x: string, s: set<string>) {
    x in s && forall y :: y in s ==> StringLe(x, y)
  }

  lemma {:induction false} LeastExists(s: set<string>) returns (x: string)
    requires s != {}
    ensures IsLeast(x, s)
  {
    hide StringLe;
    var a :| a in s;
    StringLeTotal(a, a);
    var rest := s - {a};
    if rest == {} {
      assert s == {a};
      x := a;
    } else {
      x := LeastExists(rest);
      StringLeTotal(a, x);
      if StringLe(a, x) {
        forall y | y in s ensures StringLe(a, y) {
          if y in rest { StringLeTransitive(a, x, y); }
        }
        x := a;
      } else {
        assert forall y :: y in s ==> y == a || y in rest;
      }
    }
  }

  predicate StrictlySorted(r: seq<string>) {
    forall i, j :: 0 <= i < j < |r| ==> StringLe(r[i], r[j]) && r[i] != r[j]
  }

  lemma SomeIsLeast(s: set<string>)
    requires s != {}
    ensures exists x :: IsLeast(x, s)
  {
    var x := LeastExists(s);
  }

  lemma LeastIsUnique(s: set<string>, x: string, y: string)
    requires IsLeast(x, s) && IsLeast(y, s)
    ensures x == y
  {
    StringLeAntisymmetric(x, y);
  }

  function Least(s: set<string>): (x: string)
    requires s != {}
    ensures x in s && forall y :: y in s ==> StringLe(x, y)
  {
    SomeIsLeast(s);
    assert forall x, y | IsLeast(x, s) && IsLeast(y, s) :: x == y by {
      forall x, y | IsLeast(x, s) && IsLeast(y, s) {
        LeastIsUnique(s, x, y);
      }
    }
    var x :| x in s && IsLeast(x, s);
    x
  }

  /** The members of a set in ascending order: `Array.from(set).sort()`. */
  function Sorted(s: set<string>): (r: seq<string>)
    ensures forall x :: x in r <==> x in s
  {
    if s == {} then [] else [Least(s)] + Sorted(s - {Least(s)})
  }

  lemma {:induction false} SortedAscends(s: set<string>)
    ensures StrictlySorted(Sorted(s)) && |Sorted(s)| == |s|
  {
    if s != {} {
      var x, rest := Least(s), Sorted(s - {Least(s)});
      SortedAscends(s - {x});
      forall y | y in rest ensures StringLe(x, y) && x != y {
      }
      hide Least, StringLe, Sorted;
      LeastInFront(x, rest);
    }
  }

  lemma LeastInFront(x: string, rest: seq<string>)
    requires StrictlySorted(rest) && forall y :: y in rest ==> StringLe(x, y) && x != y
    ensures StrictlySorted([x] + rest)
  {
    hide StringLe;
    var r := [x] + rest;
    forall i, j | 0 <= i < j < |r| ensures StringLe(r[i], r[j]) && r[i] != r[j] {
      assert r[j] == rest[j - 1];
    }
  }

  /** Two lists in strictly ascending order with the same members are equal. */
  lemma {:induction false} AscendingIsUnique(r: seq<string>, t: seq<string>)
    requires StrictlySorted(r) && StrictlySorted(t) && forall x :: x in r <==> x in t
    ensures r == t
  {
    assert (r == [] || r[0] in t) && (t == [] || t[0] in r);
    if r != [] {
      HeadIsLeast(r, t[0]);
      HeadIsLeast(t, r[0]);
      StringLeAntisymmetric(r[0], t[0]);
      forall x ensures x in r[1..] <==> x in t[1..] {
        InTail(r, x);
        InTail(t, x);
      }
      AscendingIsUnique(r[1..], t[1..]);
    }
  }

  lemma HeadIsLeast(r: seq<string>, x: string)
    requires StrictlySorted(r) && x in r
    ensures StringLe(r[0], x)
  {
    StringLeTotal(x, x);
  }

  lemma InTail(r: seq<string>, x: string)
    requires StrictlySorted(r) && r != []
    ensures x in r[1..] <==> x in r && x != r[0]
  {
    assert r == [r[0]] + r[1..];
  }
}
