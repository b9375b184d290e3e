/**
  Plain text for page descriptions: `stripHtml` and `buildDescription` of frontend/lib/seo.ts.
 */
module HtmlText {
  import opened Options
  import opened Text

  // ---- Tag removal ----

  /** The position of the first `>` at or behind k, if there is one. */
  function CloseAt(s: string, k: nat): (g: Option<nat>)
    requires k <= |s|
    ensures g.None? ==> forall i :: k <= i < |s| ==> s[i] != '>'
    ensures g.Some? ==> k <= g.value < |s| && s[g.value] == '>' && forall i :: k <= i < g.value ==> s[i] != '>'
    decreases |s| - k
  {
    if k == |s| then None else if s[k] == '>' then Some(k) else CloseAt(s, k + 1)
  }

  /** `s.replace(/<[^>]*>/g, "")`, from position k on. */
  function StripFrom(s: string, k: nat): string
    requires k <= |s|
    decreases |s| - k
  {
    if k == |s| then []
    else if s[k] == '<' && CloseAt(s, k).Some? then StripFrom(s, CloseAt(s, k).value + 1)
    else [s[k]] + StripFrom(s, k + 1)
  }

  function StripOnce(s: string): string {
    StripFrom(s, 0)
  }

  /** `s.replace(/<|>/g, "")` */
  function WithoutBrackets(s: string): string {
    if s == [] then [] else (if s[0] in "<>" then [] else [s[0]]) + WithoutBrackets(s[1..])
  }

  // ---- What remains, position by position ----

  /** Position i is inside a tag: some `<` at or before it is not yet closed before i, and some `>` closes it. */
  predicate InTag(s: string, i: nat)
    requires i < |s|
  {
    (exists a :: 0 <= a <= i && s[a] == '<' && forall g :: a <= g < i ==> s[g] != '>') &&
    (exists b :: i <= b < |s| && s[b] == '>')
  }

  predicate Shown(s: string, i: nat)
    requires i < |s|
  {
    s[i] !in "<>" && !InTag(s, i)
  }

  /** The positions of s from k on that are shown. */
  function ShownFrom(s: string, k: nat): (p: seq<nat>)
    requires k <= |s|
    ensures forall i :: i in p <==> k <= i < |s| && Shown(s, i)
    ensures forall i, j :: 0 <= i < j < |p| ==> p[i] < p[j]
    decreases |s| - k
  {
    if k == |s| then []
    else if Shown(s, k) then
      var rest := ShownFrom(s, k + 1);
      assert forall j :: 0 <= j < |rest| ==> rest[j] in rest;
      [k] + rest
    else ShownFrom(s, k + 1)
  }

  function Pick(s: string, p: seq<nat>): string
    requires forall i :: i in p ==> i < |s|
  {
    seq(|p|, j requires 0 <= j < |p| => assert p[j] in p; s[p[j]])
  }

  /** The text a reader sees: what is outside all tags, without stray angle brackets. */
  function Visible(s: string): string {
    Pick(s, ShownFrom(s, 0))
  }

  /** No `<` before position k is still open there. */
  ghost predicate Outside(s: string, k: nat)
    requires k <= |s|
  {
    forall a :: 0 <= a < k && s[a] == '<' ==> exists g :: a < g < k && s[g] == '>'
  }

  lemma PickFront(s: string, i: nat, rest: seq<nat>)
    requires i < |s| && forall j :: j in rest ==> j < |s|
    ensures Pick(s, [i] + rest) == [s[i]] + Pick(s, rest)
  {
  }

  /** The positions of a closed tag are hidden. */
  lemma {:induction false} SkipTag(s: string, k: nat, i: nat, g: nat)
    requires k <= i <= g < |s| && s[k] == '<' && s[g] == '>' && forall j :: k <= j < g ==> s[j] != '>'
    ensures ShownFrom(s, i) == ShownFrom(s, g + 1)
    decreases g - i
  {
    assert InTag(s, i);
    if i < g {
      SkipTag(s, k, i + 1, g);
    }
  }

  /** A position outside every tag is kept by the pass, and dropped afterwards just if it holds a bracket. */
  lemma KeepStep(s: string, k: nat)
    requires k < |s| && !InTag(s, k) && (s[k] != '<' || CloseAt(s, k).None?)
    requires WithoutBrackets(StripFrom(s, k + 1)) == Pick(s, ShownFrom(s, k + 1))
    ensures WithoutBrackets(StripFrom(s, k)) == Pick(s, ShownFrom(s, k))
  {
    hide InTag;
    WithoutBracketsFront(s[k], StripFrom(s, k + 1));
    if Shown(s, k) {
      PickFront(s, k, ShownFrom(s, k + 1));
    }
  }

  lemma BehindClose(s: string, g: nat)
    requires g < |s| && s[g] == '>'
    ensures Outside(s, g + 1)
  {
  }

  lemma OutsideStep(s: string, k: nat)
    requires k < |s| && Outside(s, k) && (s[k] != '<' || CloseAt(s, k).None?)
    ensures !InTag(s, k)
    ensures s[k] != '<' ==> Outside(s, k + 1)
  {
  }

  /** A tag is passed over as a whole by both. */
  lemma TagStep(s: string, k: nat)
    requires k < |s| && s[k] == '<' && CloseAt(s, k).Some?
    ensures var g := CloseAt(s, k).value;
      StripFrom(s, k) == StripFrom(s, g + 1) && ShownFrom(s, k) == ShownFrom(s, g + 1) && Outside(s, g + 1)
  {
    hide Outside, InTag, Shown, ShownFrom;
    var g := CloseAt(s, k).value;
    BehindClose(s, g);
    SkipTag(s, k, k, g);
  }

  lemma AtTheEnd(s: string)
    ensures WithoutBrackets(StripFrom(s, |s|)) == Pick(s, ShownFrom(s, |s|))
  {
  }

  /** From a place outside all tags, one pass and the removal of stray brackets leave what is shown. */
  lemma {:induction false} StrippedIsVisible(s: string, k: nat)
    requires k <= |s| && Outside(s, k)
    ensures WithoutBrackets(StripFrom(s, k)) == Pick(s, ShownFrom(s, k))
    decreases |s| - k
  {
    hide *;
    if k == |s| {
      AtTheEnd(s);
    } else if s[k] == '<' && CloseAt(s, k).Some? {
      TagStep(s, k);
      StrippedIsVisible(s, CloseAt(s, k).value + 1);
    } else {
      OutsideStep(s, k);
      if s[k] != '<' {
        StrippedIsVisible(s, k + 1);
      } else {
        NoCloseBehind(s, k + 1);
      }
      KeepStep(s, k);
    }
  }

  lemma WithoutBracketsFront(c: char, rest: string)
    ensures WithoutBrackets([c] + rest) == (if c in "<>" then [] else [c]) + WithoutBrackets(rest)
  {
  }

  /** Behind the last `>` nothing is a tag. */
  lemma {:induction false} NoCloseBehind(s: string, k: nat)
    requires k <= |s| && forall i :: k <= i < |s| ==> s[i] != '>'
    ensures WithoutBrackets(StripFrom(s, k)) == Pick(s, ShownFrom(s, k))
    decreases |s| - k
  {
    if k < |s| {
      NoCloseBehind(s, k + 1);
      assert !InTag(s, k);
      KeepStep(s, k);
    }
  }

  // ---- One pass is enough ----

  /** No `<` has a `>` behind it, so nothing matches. */
  predicate NoTag(s: string) {
    forall i, j :: 0 <= i < j < |s| && s[i] == '<' ==> s[j] != '>'
  }

  lemma {:induction false} StrippedHasNoTag(s: string, k: nat)
    requires k <= |s|
    ensures NoTag(StripFrom(s, k))
    ensures (forall i :: k <= i < |s| ==> s[i] != '>') ==> '>' !in StripFrom(s, k)
    decreases |s| - k
  {
    if k < |s| {
      var g := CloseAt(s, k);
      if s[k] == '<' && g.Some? {
        StrippedHasNoTag(s, g.value + 1);
      } else {
        var rest := StripFrom(s, k + 1);
        StrippedHasNoTag(s, k + 1);
        assert forall j :: 0 < j < |StripFrom(s, k)| ==> StripFrom(s, k)[j] == rest[j - 1];
        if s[k] == '<' {
          assert forall j :: 0 <= j < |rest| ==> rest[j] != '>';
        }
      }
    }
  }

  lemma {:induction false} NothingToStrip(s: string, k: nat)
    requires k <= |s| && NoTag(s)
    ensures StripFrom(s, k) == s[k..]
    decreases |s| - k
  {
    if k < |s| {
      NothingToStrip(s, k + 1);
      assert s[k..] == [s[k]] + s[k + 1..];
    }
  }

  /** A pass changes the text exactly when it holds a tag, and a second pass never changes it again. */
  lemma StripOnceSettles(s: string)
    ensures StripOnce(s) == s <==> NoTag(s)
    ensures StripOnce(StripOnce(s)) == StripOnce(s)
  {
    StrippedHasNoTag(s, 0);
    var t := StripOnce(s);
    NothingToStrip(t, 0);
    assert t[0..] == t && s[0..] == s;
    if NoTag(s) {
      NothingToStrip(s, 0);
    }
  }

  /** Passes until nothing changes, at most two of them; what is left is the visible text. */
  method StripHtml(text: string) returns (r: string, ghost passes: nat)
    ensures r == Visible(text)
    ensures passes == if NoTag(text) then 1 else 2
  {
    StripOnceSettles(text);
    var previous := text;
    var stripped := StripOnce(previous);
    passes := 1;
    while stripped != previous
      invariant stripped == StripOnce(previous)
      invariant (passes == 1 && previous == text) || (passes == 2 && previous == StripOnce(text) && !NoTag(text))
      decreases 2 - passes
    {
      previous := stripped;
      stripped := StripOnce(previous);
      passes := passes + 1;
    }
    StrippedIsVisible(text, 0);
    r := WithoutBrackets(stripped);
  }

  /** The visible text is a subsequence of the input and has no angle bracket. */
  lemma VisibleIsPlain(s: string)
    ensures |Visible(s)| == |ShownFrom(s, 0)| && '<' !in Visible(s) && '>' !in Visible(s)
    ensures forall j :: 0 <= j < |Visible(s)| ==> ShownFrom(s, 0)[j] < |s| && Visible(s)[j] == s[ShownFrom(s, 0)[j]]
  {
    var p, r := ShownFrom(s, 0), Visible(s);
    forall j | 0 <= j < |p| ensures p[j] < |s| && r[j] == s[p[j]] && r[j] != '<' && r[j] != '>' {
      assert p[j] in p;
    }
  }

  // ---- Descriptions ----

  const FALLBACK := "Read translated Japanese web novels on Dokushodo."
  const MAX_LENGTH := 160

  /** `s.replace(/\s+/g, " ")` */
  function Collapse(s: string): (r: string)
    ensures |r| <= |s| && (r == [] <==> s == [])
    decreases |s|
  {
    if s == [] then []
    else if JsSpace(s[0]) then " " + Collapse(TrimLeft(s[1..], JsSpace))
    else [s[0]] + Collapse(s[1..])
  }

  function Shorten(s: string): string {
    if |s| <= MAX_LENGTH then s else s[..MAX_LENGTH - 1] + "\U{2026}"
  }

  function Description(text: Option<string>): string {
    if text.None? || Trim(text.value, JsSpace) == [] then FALLBACK
    else Shorten(Collapse(Visible(Trim(text.value, JsSpace))))
  }

  method BuildDescription(text: Option<string>) returns (r: string)
    ensures r == Description(text)
    ensures text.None? || Trim(text.value, JsSpace) == "" ==> r == "Read translated Japanese web novels on Dokushodo."
  {
    if text.None? || Trim(text.value, JsSpace) == [] {
      return FALLBACK;
    }
    var stripped, _ := StripHtml(Trim(text.value, JsSpace));
    var collapsed := Collapse(stripped);
    if |collapsed| <= MAX_LENGTH {
      return collapsed;
    }
    return collapsed[..MAX_LENGTH - 1] + "\U{2026}";
  }

  /** The maximal runs of characters that are not white space; `open` is the run being read. */
  function Words(s: string, open: string): seq<string> {
    if s == [] then (if open == [] then [] else [open])
    else if JsSpace(s[0]) then (if open == [] then [] else [open]) + Words(s[1..], [])
    else Words(s[1..], open + [s[0]])
  }

  /** Single spaces only, as the only kind of white space. */
  predicate SingleSpaced(s: string) {
    (forall i :: 0 <= i < |s| && JsSpace(s[i]) ==> s[i] == ' ') &&
    (forall i :: 0 <= i < |s| - 1 && s[i] == ' ' ==> s[i + 1] != ' ')
  }

  lemma {:induction false} WordsAfterSpaces(s: string)
    ensures Words(TrimLeft(s, JsSpace), []) == Words(s, [])
  {
    hide JsSpace;
    if s != [] && JsSpace(s[0]) {
      assert TrimLeft(s, JsSpace) == TrimLeft(s[1..], JsSpace);
      WordsAfterSpaces(s[1..]);
    }
  }

  lemma BlankIsSpace()
    ensures JsSpace(' ') && !JsSpace('\U{2026}')
  {
  }

  /** Collapsing keeps the words. */
  lemma {:induction false} CollapseKeepsWords(s: string, open: string)
    ensures Words(Collapse(s), open) == Words(s, open)
    decreases |s|
  {
    hide JsSpace;
    if s != [] {
      BlankIsSpace();
      var r := Collapse(s);
      if JsSpace(s[0]) {
        var rest := TrimLeft(s[1..], JsSpace);
        CollapseKeepsWords(rest, []);
        WordsAfterSpaces(s[1..]);
        assert r[0] == ' ' && r[1..] == Collapse(rest);
      } else {
        CollapseKeepsWords(s[1..], open + [s[0]]);
        assert r[0] == s[0] && r[1..] == Collapse(s[1..]);
      }
    }
  }

  lemma SingleSpacedFront(c: char, t: string)
    requires SingleSpaced(t) && (JsSpace(c) ==> c == ' ' && (t != [] ==> t[0] != ' '))
    ensures SingleSpaced([c] + t)
  {
    hide JsSpace;
    BlankIsSpace();
    var r := [c] + t;
    assert forall i :: 0 < i < |r| ==> r[i] == t[i - 1];
  }

  /** Past the first white-space character of s: either only white space follows, or the last character stays. */
  lemma EndAfterSpaces(s: string)
    requires s != [] && JsSpace(s[0])
    ensures var rest := TrimLeft(s[1..], JsSpace);
      if rest == [] then JsSpace(s[|s| - 1]) else !JsSpace(rest[0]) && rest[|rest| - 1] == s[|s| - 1]
  {
    hide JsSpace;
    var tail := s[1..];
    var rest := TrimLeft(tail, JsSpace);
    if rest == [] && tail != [] {
      assert JsSpace(tail[|tail| - 1]);
    }
  }

  lemma CollapseFront(s: string)
    requires s != []
    ensures Collapse(s) ==
      if JsSpace(s[0]) then [' '] + Collapse(TrimLeft(s[1..], JsSpace)) else [s[0]] + Collapse(s[1..])
  {
    hide JsSpace, TrimLeft;
  }

  predicate SameEnds(s: string, r: string) {
    s != [] ==> r != [] && (r[0] == ' ' <==> JsSpace(s[0])) && (r[|r| - 1] == ' ' <==> JsSpace(s[|s| - 1]))
  }

  lemma SpaceFrontEnds(s: string, r: string)
    requires s != [] && JsSpace(s[0]) && SameEnds(TrimLeft(s[1..], JsSpace), r) && (r == [] <==> TrimLeft(s[1..], JsSpace) == [])
    ensures SameEnds(s, [' '] + r) && (r != [] ==> r[0] != ' ')
  {
    hide JsSpace, TrimLeft;
    EndAfterSpaces(s);
  }

  lemma OtherFrontEnds(s: string, r: string)
    requires s != [] && !JsSpace(s[0]) && SameEnds(s[1..], r) && (r == [] <==> s[1..] == [])
    ensures SameEnds(s, [s[0]] + r)
  {
    BlankIsSpace();
    hide JsSpace;
  }

  /** Collapsing leaves single spaces, and one at an end exactly where there was white space. */
  lemma {:induction false} CollapseLeavesBlanks(s: string)
    ensures SingleSpaced(Collapse(s)) && SameEnds(s, Collapse(s))
    decreases |s|
  {
    hide JsSpace, SingleSpaced, TrimLeft, Collapse, SameEnds;
    BlankIsSpace();
    if s == [] {
      NothingIsSingleSpaced();
    } else {
      CollapseFront(s);
      if JsSpace(s[0]) {
        var rest := TrimLeft(s[1..], JsSpace);
        CollapseLeavesBlanks(rest);
        SpaceFrontEnds(s, Collapse(rest));
        SingleSpacedFront(' ', Collapse(rest));
      } else {
        CollapseLeavesBlanks(s[1..]);
        OtherFrontEnds(s, Collapse(s[1..]));
        SingleSpacedFront(s[0], Collapse(s[1..]));
      }
    }
  }

  lemma NothingIsSingleSpaced()
    ensures SingleSpaced([]) && SameEnds([], []) && Collapse([]) == []
  {
  }

  /** The description of a text: at most 160 characters, no angle bracket, single spaces. */
  lemma DescriptionIsShortAndPlain(text: string)
    requires Trim(text, JsSpace) != []
    ensures var r := Description(Some(text));
      |r| <= 160 && '<' !in r && '>' !in r && SingleSpaced(r)
  {
    hide *;
    VisibleIsPlain(Trim(text, JsSpace));
    var s := Visible(Trim(text, JsSpace));
    CollapseLeavesBlanks(s);
    CollapseHasNoMore(s);
    ShortenKeeps(Collapse(s));
    DescribedText(text);
  }

  /** Up to 160 characters all words of the visible text are there; beyond, 159 characters and an ellipsis. */
  lemma DescriptionKeepsWords(text: string)
    requires Trim(text, JsSpace) != []
    ensures var c, r := Collapse(Visible(Trim(text, JsSpace))), Description(Some(text));
      if |c| <= 160 then Words(r, []) == Words(Visible(Trim(text, JsSpace)), [])
      else |r| == 160 && r[..159] == c[..159] && r[159] == '\U{2026}'
  {
    hide Trim, JsSpace, Visible, Collapse, Words;
    DescribedText(text);
    CollapseKeepsWords(Visible(Trim(text, JsSpace)), []);
  }

  lemma DescribedText(text: string)
    requires Trim(text, JsSpace) != []
    ensures Description(Some(text)) == Shorten(Collapse(Visible(Trim(text, JsSpace))))
  {
    hide Trim, JsSpace, Visible, Collapse, Shorten;
  }

  lemma ShortenKeeps(s: string)
    requires SingleSpaced(s)
    ensures SingleSpaced(Shorten(s)) && |Shorten(s)| <= 160
    ensures forall c :: c in Shorten(s) ==> c in s || c == '\U{2026}'
  {
    hide JsSpace;
    BlankIsSpace();
  }

  lemma {:induction false} CollapseHasNoMore(s: string)
    ensures forall c :: c in Collapse(s) ==> c in s || c == ' '
    decreases |s|
  {
    if s != [] {
      if JsSpace(s[0]) {
        var rest := TrimLeft(s[1..], JsSpace);
        CollapseHasNoMore(rest);
        assert forall c :: c in rest ==> c in s;
      } else {
        CollapseHasNoMore(s[1..]);
      }
    }
  }

  /** The description is empty, without falling back, exactly when a text is not blank but shows nothing. */
  lemma EmptyDescriptionIff(text: Option<string>)
    ensures Description(text) == [] <==>
      text.Some? && Trim(text.value, JsSpace) != [] && forall i :: 0 <= i < |Trim(text.value, JsSpace)| ==> !Shown(Trim(text.value, JsSpace), i)
  {
    if text.Some? && Trim(text.value, JsSpace) != [] {
      var t := Trim(text.value, JsSpace);
      var p := ShownFrom(t, 0);
      assert |Visible(t)| == |p|;
      assert p != [] ==> p[0] in p;
    }
  }

  /** A text of one tag has an empty description. */
  lemma TagAloneShowsNothing()
    ensures Description(Some("<p>")) == ""
  {
    hide Trim, JsSpace, Description, InTag;
    TagIsTrimmed();
    InsideTag();
    EmptyDescriptionIff(Some("<p>"));
  }

  lemma TagIsTrimmed()
    ensures Trim("<p>", JsSpace) == "<p>"
  {
    hide Trim;
    assert Trimmed("<p>", JsSpace);
  }

  lemma InsideTag()
    ensures InTag("<p>", 1)
  {
    var t := "<p>";
    assert t[0] == '<' && t[1] != '>' && t[2] == '>';
  }
}
