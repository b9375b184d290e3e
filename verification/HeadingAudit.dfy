/**
  The heading checks of the documentation audit: which lines of a body are visible outside code
  fences, which of them are headings, and what the three heading violations together rule out.
 */
module HeadingAudit {
  import opened Options
  import opened Text
  import opened PyLines
  import opened FrontMatter

  // ---- Fences ----

  function FenceOf(line: string): Option<char> {
    var stripped := Strip(line);
    if |stripped| >= 3 && stripped[0] == stripped[1] == stripped[2] && (stripped[0] == '`' || stripped[0] == '~')
    then Some(stripped[0]) else None
  }

  /** The visible lines so far, and the kind of fence that is open. */
  datatype Scan = Scan(visible: seq<string>, fence: Option<char>)

  function ScanLine(scan: Scan, line: string): Scan {
    var mark := FenceOf(line);
    if mark.Some? then
      if scan.fence.None? then scan.(fence := mark)
      else if scan.fence == mark then scan.(fence := None)
      else scan
    else if scan.fence.None? then scan.(visible := scan.visible + [line])
    else scan
  }

  function ScanLines(lines: seq<string>): Scan {
    if lines == [] then Scan([], None) else ScanLine(ScanLines(lines[..|lines| - 1]), lines[|lines| - 1])
  }

  method VisibleLines(lines: seq<string>) returns (visible: seq<string>, malformed: bool)
    ensures visible == ScanLines(lines).visible && malformed == ScanLines(lines).fence.Some?
  {
    var fence: Option<char> := None;
    visible := [];
    hide FenceOf;
    var i := 0;
    while i < |lines|
      invariant 0 <= i <= |lines|
      invariant Scan(visible, fence) == ScanLines(lines[..i])
    {
      assert lines[..i + 1][..i] == lines[..i];
      var mark := FenceOf(lines[i]);
      if mark.Some? {
        if fence.None? {
          fence := mark;
        } else if fence == mark {
          fence := None;
        }
      } else if fence.None? {
        visible := visible + [lines[i]];
      }
      i := i + 1;
    }
    assert lines[..i] == lines;
    malformed := fence.Some?;
  }

  // ---- Headings ----

  function Hashes(line: string): (n: nat)
    ensures n <= |line| && (n < |line| ==> line[n] != '#') && forall i :: 0 <= i < n ==> line[i] == '#'
  {
    if line == [] || line[0] != '#' then 0 else 1 + Hashes(line[1..])
  }

  /** The level of a heading line, zero for any other: one to six number signs, white space, and at least
      one more character. */
  function Level(line: string): nat {
    var n := Hashes(line);
    if 1 <= n <= 6 && |line| >= n + 2 && PySpace(line[n]) then n else 0
  }

  function Levels(visible: seq<string>): (levels: seq<nat>)
    ensures forall i :: 0 <= i < |levels| ==> 1 <= levels[i] <= 6
  {
    if visible == [] then []
    else
      var before := Levels(visible[..|visible| - 1]);
      var level := Level(visible[|visible| - 1]);
      if level > 0 then before + [level] else before
  }

  function FirstContent(lines: seq<string>): string {
    if lines == [] then "" else if Strip(lines[0]) != "" then lines[0] else FirstContent(lines[1..])
  }

  predicate OpensWithH1(lines: seq<string>) {
    var first := FirstContent(lines);
    Level(first) > 0 && |first| >= 2 && first[..2] == "# "
  }

  /** The places where a heading is more than one level deeper than the one before it. */
  function Skips(levels: seq<nat>): nat {
    if |levels| <= 1 then 0
    else
      var last := |levels| - 1;
      Skips(levels[..last]) + if levels[last] > levels[last - 1] + 1 then 1 else 0
  }

  datatype Violations = Violations(missingH1: bool, h1NotImmediate: bool, headingSkips: nat)

  method AuditHeadings(body: string) returns (v: Violations)
    ensures var levels := Levels(ScanLines(BareLines(body)).visible);
      && v.missingH1 == (levels == [])
      && v.h1NotImmediate == (levels != [] && !OpensWithH1(BareLines(body)))
      && v.headingSkips == Skips(levels)
    ensures !v.missingH1 && !v.h1NotImmediate && v.headingSkips == 0 <==>
      OpensWithH1(BareLines(body)) && WellNested(Levels(ScanLines(BareLines(body)).visible))
  {
    hide ScanLines, Levels, BareLines, OpensWithH1, WellNested;
    var visible, _ := VisibleLines(BareLines(body));
    var levels := Levels(visible);
    var skips, previous := 0, 0;
    var i := 0;
    while i < |levels|
      invariant 0 <= i <= |levels|
      invariant previous == if i == 0 then 0 else levels[i - 1]
      invariant skips == Skips(levels[..i])
    {
      assert levels[..i + 1][..i] == levels[..i];
      if previous > 0 && levels[i] > previous + 1 {
        skips := skips + 1;
      }
      previous := levels[i];
      i := i + 1;
    }
    assert levels[..i] == levels;
    v := Violations(levels == [], levels != [] && !OpensWithH1(BareLines(body)), skips);
    if OpensWithH1(BareLines(body)) {
      AuditMeansNested(body);
    }
  }

  // ---- What the checks establish ----

  /** Heading `i` stands in a section of every smaller level: some earlier heading opened one and no
      heading since has closed it. */
  ghost predicate InSection(levels: seq<nat>, i: nat, m: nat)
    requires i < |levels|
  {
    exists j :: 0 <= j < i && levels[j] == m && forall k :: j < k <= i ==> levels[k] > m
  }

  ghost predicate WellNested(levels: seq<nat>) {
    forall i, m :: 0 <= i < |levels| && 1 <= m < levels[i] ==> InSection(levels, i, m)
  }

  lemma {:induction false} NoSkipMeansStep(levels: seq<nat>)
    ensures Skips(levels) == 0 <==> forall i :: 1 <= i < |levels| ==> levels[i] <= levels[i - 1] + 1
  {
    if |levels| > 1 {
      var last := |levels| - 1;
      NoSkipMeansStep(levels[..last]);
      if Skips(levels) == 0 {
        forall i | 1 <= i < |levels| ensures levels[i] <= levels[i - 1] + 1 {
          if i < last { assert levels[..last][i] <= levels[..last][i - 1] + 1; }
        }
      }
    }
  }

  lemma {:induction false} StepsNest(levels: seq<nat>, i: nat, m: nat)
    requires levels != [] && levels[0] == 1 && i < |levels| && 1 <= m < levels[i]
    requires forall k :: 1 <= k < |levels| ==> levels[k] <= levels[k - 1] + 1
    ensures InSection(levels, i, m)
  {
    assert i > 0;
    if levels[i - 1] != m {
      StepsNest(levels, i - 1, m);
    }
  }

  /** Headings are well nested exactly when the first is a top-level one and no heading skips a level. */
  lemma NestedIff(levels: seq<nat>)
    requires levels != [] && forall i :: 0 <= i < |levels| ==> levels[i] >= 1
    ensures WellNested(levels) <==> levels[0] == 1 && Skips(levels) == 0
  {
    NoSkipMeansStep(levels);
    if levels[0] == 1 && Skips(levels) == 0 {
      forall i, m | 0 <= i < |levels| && 1 <= m < levels[i] ensures InSection(levels, i, m) {
        StepsNest(levels, i, m);
      }
    }
    if levels[0] > 1 {
      LateStartBreaks(levels);
    } else if Skips(levels) > 0 {
      var i :| 1 <= i < |levels| && levels[i] > levels[i - 1] + 1;
      SkipBreaks(levels, i);
    }
  }

  lemma LateStartBreaks(levels: seq<nat>)
    requires levels != [] && levels[0] > 1
    ensures !WellNested(levels)
  {
    assert !InSection(levels, 0, 1);
  }

  lemma SkipBreaks(levels: seq<nat>, i: nat)
    requires 1 <= i < |levels| && levels[i] > levels[i - 1] + 1
    ensures !WellNested(levels)
  {
    assert !InSection(levels, i, levels[i - 1] + 1);
  }

  // ---- From the body to the first heading ----

  lemma ScanNext(lines: seq<string>, n: nat)
    requires n < |lines|
    ensures ScanLines(lines[..n + 1]) == ScanLine(ScanLines(lines[..n]), lines[n])
  {
    assert lines[..n + 1][..n] == lines[..n];
    hide ScanLine;
  }

  lemma LevelsNext(visible: seq<string>, line: string)
    ensures Levels(visible + [line]) == if Level(line) > 0 then Levels(visible) + [Level(line)] else Levels(visible)
  {
    assert (visible + [line])[..|visible|] == visible;
    hide Level;
  }

  /** Lines before the first content are visible and are no headings. */
  lemma {:induction false} BlankPrefix(lines: seq<string>, n: nat)
    requires n <= |lines| && forall i :: 0 <= i < n ==> Strip(lines[i]) == ""
    ensures ScanLines(lines[..n]).fence.None? && Levels(ScanLines(lines[..n]).visible) == []
  {
    if n > 0 {
      BlankPrefix(lines, n - 1);
      ScanNext(lines, n - 1);
      LevelsNext(ScanLines(lines[..n - 1]).visible, lines[n - 1]);
      BlankIsPlain(lines[n - 1]);
      hide FenceOf, Level, Levels, ScanLines;
    }
  }

  lemma BlankIsPlain(line: string)
    requires Strip(line) == ""
    ensures FenceOf(line).None? && Level(line) == 0
  {
    if line != "" && !PySpace(line[0]) {
      StripNotBlank(line);
    }
  }

  lemma StripNotBlank(line: string)
    requires line != "" && !PySpace(line[0])
    ensures Strip(line) != "" && Strip(line)[0] == line[0]
  {
    assert TrimLeft(line, PySpace) == line;
    NotBlank(line);
  }

  lemma {:induction false} NotBlank(s: string)
    requires s != "" && !PySpace(s[0])
    ensures TrimRight(s, PySpace) != ""
  {
    if PySpace(s[|s| - 1]) {
      NotBlank(s[..|s| - 1]);
    }
  }

  lemma H1IsPlain(line: string)
    requires |line| >= 2 && line[..2] == "# " && Level(line) > 0
    ensures FenceOf(line).None? && Level(line) == 1
  {
    assert line[0] == '#' && line[1] == ' ';
    assert Hashes(line[1..]) == 0;
    StripNotBlank(line);
    hide Strip;
  }

  lemma {:induction false} FirstContentAt(lines: seq<string>) returns (n: nat)
    requires FirstContent(lines) != ""
    ensures n < |lines| && lines[n] == FirstContent(lines) && forall i :: 0 <= i < n ==> Strip(lines[i]) == ""
  {
    hide Strip;
    if Strip(lines[0]) != "" {
      n := 0;
    } else {
      var m := FirstContentAt(lines[1..]);
      n := m + 1;
      forall i | 0 <= i < n ensures Strip(lines[i]) == "" {
        if i > 0 { assert lines[i] == lines[1..][i - 1]; }
      }
    }
  }

  lemma OneMoreLine(lines: seq<string>, n: nat)
    requires n < |lines|
    ensures Levels(ScanLines(lines[..n]).visible) <= Levels(ScanLines(lines[..n + 1]).visible)
  {
    hide FenceOf, Level, Levels, ScanLines;
    ScanNext(lines, n);
    LevelsNext(ScanLines(lines[..n]).visible, lines[n]);
  }

  lemma PrefixTransitive<T>(a: seq<T>, b: seq<T>, c: seq<T>)
    requires a <= b <= c
    ensures a <= c
  {
  }

  /** Further lines never change the headings found so far. */
  lemma {:induction false} LevelsPrefix(lines: seq<string>, n: nat)
    requires n <= |lines|
    ensures Levels(ScanLines(lines[..n]).visible) <= Levels(ScanLines(lines).visible)
    decreases |lines| - n
  {
    hide Levels, ScanLines;
    if n == |lines| {
      assert lines[..n] == lines;
    } else {
      OneMoreLine(lines, n);
      LevelsPrefix(lines, n + 1);
      PrefixTransitive(Levels(ScanLines(lines[..n]).visible), Levels(ScanLines(lines[..n + 1]).visible), Levels(ScanLines(lines).visible));
    }
  }

  lemma OpeningH1IsFirst(lines: seq<string>)
    requires OpensWithH1(lines)
    ensures var levels := Levels(ScanLines(lines).visible); levels != [] && levels[0] == 1
  {
    var n := FirstContentAt(lines);
    BlankPrefix(lines, n);
    H1IsPlain(lines[n]);
    ScanNext(lines, n);
    LevelsNext(ScanLines(lines[..n]).visible, lines[n]);
    LevelsPrefix(lines, n + 1);
    hide FenceOf, Level, FirstContent, Levels, ScanLines;
  }

  /** A body that opens with a top-level heading: the audit reports no skip exactly when every heading of
      every level stands, for each smaller level, in a section that an earlier heading of that level
      opened with nothing shallower in between. */
  lemma AuditMeansNested(body: string)
    requires OpensWithH1(BareLines(body))
    ensures var levels := Levels(ScanLines(BareLines(body)).visible);
      levels != [] && (Skips(levels) == 0 <==> WellNested(levels))
  {
    OpeningH1IsFirst(BareLines(body));
    NestedIff(Levels(ScanLines(BareLines(body)).visible));
    hide OpensWithH1, Skips, WellNested, Levels, ScanLines;
  }

  // ---- Which lines are headings, and which are visible ----

  /** A heading of level n: n number signs, at most six, then white space and something more. */
  lemma LevelIff(line: string, n: nat)
    requires n > 0
    ensures Level(line) == n <==>
      n <= 6 && |line| >= n + 2 && (forall i :: 0 <= i < n ==> line[i] == '#') && PySpace(line[n])
  {
    HashIsNoSpace();
    hide PySpace;
  }

  lemma HashIsNoSpace()
    ensures !PySpace('#')
  {
  }

  /** A fence mark: a line that begins, white space apart, with three backticks or three tildes. */
  lemma FenceOfIff(line: string, c: char)
    ensures FenceOf(line) == Some(c) <==>
      (c == '`' || c == '~') && |Strip(line)| >= 3 && Strip(line)[0] == c && Strip(line)[1] == c && Strip(line)[2] == c
  {
    hide Trim;
  }

  ghost predicate FencedFrom(lines: seq<string>, j: nat, i: nat, c: char) {
    j < i <= |lines| && FenceOf(lines[j]) == Some(c) && ScanLines(lines[..j]).fence.None? &&
    forall k :: j < k < i ==> FenceOf(lines[k]) != Some(c)
  }

  ghost predicate FenceOpen(lines: seq<string>, i: nat, c: char) {
    exists j: nat :: FencedFrom(lines, j, i, c)
  }

  lemma FenceOpenNext(lines: seq<string>, i: nat, c: char)
    requires i < |lines|
    ensures FenceOpen(lines, i + 1, c) <==>
      (FenceOf(lines[i]) == Some(c) && ScanLines(lines[..i]).fence.None?) || (FenceOpen(lines, i, c) && FenceOf(lines[i]) != Some(c))
  {
    hide FenceOf, ScanLines;
    if FenceOpen(lines, i + 1, c) {
      var j: nat :| FencedFrom(lines, j, i + 1, c);
      assert j < i ==> FencedFrom(lines, j, i, c);
    }
    if FenceOpen(lines, i, c) && FenceOf(lines[i]) != Some(c) {
      var j: nat :| FencedFrom(lines, j, i, c);
      assert FencedFrom(lines, j, i + 1, c);
    }
    if FenceOf(lines[i]) == Some(c) && ScanLines(lines[..i]).fence.None? {
      assert FencedFrom(lines, i, i + 1, c);
    }
  }

  lemma ScanFence(scan: Scan, line: string, c: char)
    ensures ScanLine(scan, line).fence == Some(c) <==>
      (FenceOf(line) == Some(c) && scan.fence.None?) || (scan.fence == Some(c) && FenceOf(line) != Some(c))
  {
    hide FenceOf;
  }

  /** A fence is open before line i exactly when some earlier mark opened it, outside any fence, and no mark
      of its kind has followed. */
  lemma {:induction false} FenceOpenIff(lines: seq<string>, i: nat, c: char)
    requires i <= |lines|
    ensures ScanLines(lines[..i]).fence == Some(c) <==> FenceOpen(lines, i, c)
  {
    hide *;
    if i == 0 {
      NoFenceYet(lines, c);
    } else {
      var n := i - 1;
      FenceOpenIff(lines, n, c);
      ScanNext(lines, n);
      FenceOpenNext(lines, n, c);
      ScanFence(ScanLines(lines[..n]), lines[n], c);
    }
  }

  lemma NoFenceYet(lines: seq<string>, c: char)
    ensures ScanLines(lines[..0]).fence.None? && !FenceOpen(lines, 0, c)
  {
    hide FenceOf;
    assert lines[..0] == [];
  }

  /** A line is visible exactly when it is no fence mark and no fence is open before it. */
  lemma VisibleIff(lines: seq<string>, i: nat)
    requires i < |lines|
    ensures ScanLines(lines[..i + 1]).visible ==
      ScanLines(lines[..i]).visible + if FenceOf(lines[i]).None? && ScanLines(lines[..i]).fence.None? then [lines[i]] else []
  {
    ScanNext(lines, i);
    hide FenceOf, ScanLines;
  }
}
