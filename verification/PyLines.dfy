/**
  The lines of a text as `str.splitlines` cuts them, with and without their ends.
 */
module PyLines {
  /** The characters at which `str.splitlines` ends a line; all of them are white space. */
  predicate IsBoundary(c: char) {
    c == '\n' || c == '\r' || '\U{0B}' <= c <= '\U{0C}' || '\U{1C}' <= c <= '\U{1E}' || c == '\U{85}' ||
    c == '\U{2028}' || c == '\U{2029}'
  }

  predicate OneLine(s: string) {
    forall i :: 0 <= i < |s| ==> !IsBoundary(s[i])
  }

  /** The length of the first line, its end included; a carriage return takes a line feed with it. */
  function FirstLine(s: string): (n: nat)
    requires s != []
    ensures 0 < n <= |s|
  {
    if IsBoundary(s[0]) then
      if s[0] == '\r' && |s| > 1 && s[1] == '\n' then 2 else 1
    else if |s| == 1 then 1
    else 1 + FirstLine(s[1..])
  }

  /** `splitlines(keepends=True)`. */
  function Lines(s: string): (lines: seq<string>)
    ensures forall i :: 0 <= i < |lines| ==> lines[i] != ""
  {
    if s == [] then [] else [s[..FirstLine(s)]] + Lines(s[FirstLine(s)..])
  }

  function Concat(lines: seq<string>): string {
    if lines == [] then "" else lines[0] + Concat(lines[1..])
  }

  lemma {:induction false} LinesConcat(s: string)
    ensures Concat(Lines(s)) == s
  {
    if s != [] {
      LinesConcat(s[FirstLine(s)..]);
      assert s == s[..FirstLine(s)] + s[FirstLine(s)..];
    }
  }

  lemma {:induction false} FirstLineEnds(s: string, rest: string)
    requires OneLine(s)
    ensures FirstLine(s + "\n" + rest) == |s| + 1
  {
    if s != [] {
      assert (s + "\n" + rest)[1..] == s[1..] + "\n" + rest;
      FirstLineEnds(s[1..], rest);
    }
  }

  lemma LinesSplitOff(s: string, rest: string)
    requires OneLine(s)
    ensures Lines(s + "\n" + rest) == [s + "\n"] + Lines(rest)
  {
    FirstLineEnds(s, rest);
    var all := s + "\n" + rest;
    assert all[..|s| + 1] == s + "\n" && all[|s| + 1..] == rest;
  }

  ghost predicate IsLine(line: string) {
    exists s :: OneLine(s) && line == s + "\n"
  }

  lemma {:induction false} LinesOfConcat(lines: seq<string>, rest: string)
    requires forall i :: 0 <= i < |lines| ==> IsLine(lines[i])
    ensures Lines(Concat(lines) + rest) == lines + Lines(rest)
  {
    if lines == [] {
      assert Concat(lines) + rest == rest;
    } else {
      var s :| OneLine(s) && lines[0] == s + "\n";
      hide Lines, OneLine, IsLine;
      Regroup(s + "\n", Concat(lines[1..]), rest);
      LinesSplitOff(s, Concat(lines[1..]) + rest);
      LinesOfConcat(lines[1..], rest);
      Regroup([lines[0]], lines[1..], Lines(rest));
    }
  }

  lemma Regroup<T>(a: seq<T>, b: seq<T>, c: seq<T>)
    ensures (a + b) + c == a + (b + c)
  {
  }

  /** A line without its end. */
  function WithoutEnd(line: string): string {
    if |line| >= 2 && line[|line| - 2..] == "\r\n" then line[..|line| - 2]
    else if line != "" && IsBoundary(line[|line| - 1]) then line[..|line| - 1]
    else line
  }

  function WithoutEnds(lines: seq<string>): (r: seq<string>)
    ensures |r| == |lines|
  {
    seq(|lines|, i requires 0 <= i < |lines| => WithoutEnd(lines[i]))
  }

  /** `splitlines()`. */
  function BareLines(s: string): seq<string> {
    WithoutEnds(Lines(s))
  }

  lemma BareLinesStep(s: string)
    requires s != []
    ensures var n := FirstLine(s);
      BareLines(s) == [WithoutEnd(s[..n])] + BareLines(s[n..]) && (n < |s| <==> BareLines(s[n..]) != [])
  {
    hide FirstLine, WithoutEnd, WithoutEnds;
    var n := FirstLine(s);
    WithoutEndsFront(s[..n], Lines(s[n..]));
  }

  lemma WithoutEndsFront(line: string, rest: seq<string>)
    ensures WithoutEnds([line] + rest) == [WithoutEnd(line)] + WithoutEnds(rest)
  {
    hide WithoutEnd;
  }
}
