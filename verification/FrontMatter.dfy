/**
  The parser of the small front-matter format at the head of every canonical document, and the printer
  of such a block.
 */
module FrontMatter {
  import opened Options
  import opened Text
  import opened PyLines

  // ---- Values ----

  function Strip(s: string): string {
    Trim(s, PySpace)
  }

  predicate Quoted(s: string) {
    |s| >= 2 && s[0] == s[|s| - 1] && s[0] in "\"'"
  }

  function StripQuotes(s: string): string {
    if Quoted(s) then s[1..|s| - 1] else s
  }

  predicate Bracketed(s: string) {
    s != "" && s[0] == '[' && s[|s| - 1] == ']'
  }

  datatype Value = Scalar(text: string) | List(items: seq<string>)

  function StripAll(items: seq<string>): (r: seq<string>)
    ensures |r| == |items|
  {
    seq(|items|, i requires 0 <= i < |items| => StripQuotes(Strip(items[i])))
  }

  function ParseScalar(raw: string): Value {
    var value := Strip(raw);
    if value == "" then List([])
    else if Bracketed(value) then
      var inner := Strip(value[1..|value| - 1]);
      if inner == "" then List([]) else List(StripAll(Split(inner, ',')))
    else Scalar(StripQuotes(value))
  }

  /** A scalar that is read as it is written. */
  predicate Plain(s: string) {
    s != "" && Trimmed(s, PySpace) && !Bracketed(s) && !Quoted(s)
  }

  lemma PlainScalarRoundTrip(s: string)
    ensures ParseScalar(s) == Scalar(s) <==> Plain(s)
  {
    hide PySpace, Split, StripAll;
    if !Trimmed(s, PySpace) {
      assert |Strip(s)| < |s|;
    }
  }

  /** A list item that is read as it is written; it may be empty. */
  predicate PlainItem(s: string) {
    Trimmed(s, PySpace) && !Quoted(s)
  }

  lemma PlainItemRoundTrip(s: string)
    ensures StripQuotes(Strip(s)) == s <==> PlainItem(s)
  {
    if !Trimmed(s, PySpace) {
      assert |Strip(s)| < |s|;
    }
  }

  // ---- The parser ----

  predicate IsLetter(c: char) {
    'a' <= c <= 'z' || 'A' <= c <= 'Z'
  }

  predicate IsKeyChar(c: char) {
    IsLetter(c) || '0' <= c <= '9' || c == '_' || c == '-'
  }

  predicate IsKey(key: string) {
    key != "" && IsLetter(key[0]) && forall i :: 0 <= i < |key| ==> IsKeyChar(key[i])
  }

  /** How many key characters the text begins with. */
  function KeyLength(s: string): (n: nat)
    ensures n <= |s| && (forall i :: 0 <= i < n ==> IsKeyChar(s[i])) && (n < |s| ==> !IsKeyChar(s[n]))
  {
    if s == [] || !IsKeyChar(s[0]) then 0 else 1 + KeyLength(s[1..])
  }

  /** The key pattern: a key, a colon, and the rest without leading white space. */
  function MatchKey(s: string): Option<(string, string)> {
    var n := KeyLength(s);
    if n > 0 && IsLetter(s[0]) && n < |s| && s[n] == ':' then Some((s[..n], TrimLeft(s[n + 1..], PySpace))) else None
  }

  /** `current` is the key whose list the following item lines continue. */
  datatype State = State(fields: map<string, Value>, malformed: bool, current: Option<string>)

  const START := State(map[], false, None)

  function ReadLine(st: State, line: string): State
    requires line != ""
  {
    var stripped := Strip(line);
    if stripped == "" || stripped[0] == '#' then st
    else if PySpace(line[0]) && stripped[0] == '-' && st.current.Some? then
      var key := st.current.value;
      var items := if key in st.fields && st.fields[key].List? then st.fields[key].items else [];
      st.(fields := st.fields[key := List(items + [StripQuotes(Strip(stripped[1..]))])])
    else
      match MatchKey(stripped)
      case None => st.(malformed := true, current := None)
      case Some((key, raw)) =>
        var value := ParseScalar(raw);
        st.(fields := st.fields[key := value], current := if value.List? && raw == "" then Some(key) else None)
  }

  function ReadLines(st: State, lines: seq<string>): State
    requires forall i :: 0 <= i < |lines| ==> lines[i] != ""
  {
    if lines == [] then st else ReadLine(ReadLines(st, lines[..|lines| - 1]), lines[|lines| - 1])
  }

  predicate IsFence(line: string) {
    Strip(line) == "---"
  }

  /** The first fence at or after the given line. */
  function NextFence(lines: seq<string>, from: nat): (n: nat)
    requires from <= |lines|
    ensures from <= n <= |lines|
    decreases |lines| - from
  {
    if from == |lines| || IsFence(lines[from]) then from else NextFence(lines, from + 1)
  }

  datatype Parsed = Parsed(front: Option<State>, body: string, present: bool)

  function Parse(text: string): Parsed {
    var lines := Lines(text);
    if lines == [] || !IsFence(lines[0]) then Parsed(None, text, false)
    else
      var closing := NextFence(lines, 1);
      if closing == |lines| then Parsed(None, text, true)
      else Parsed(Some(ReadLines(START, lines[1..closing])), Concat(lines[closing + 1..]), true)
  }

  method ParseFrontMatter(text: string) returns (parsed: Parsed)
    ensures parsed == Parse(text)
    ensures ReadsAs(text, parsed)
  {
    ParseReads(text);
    hide Trim, Lines, Concat, ReadsAs;
    var lines := Lines(text);
    if |lines| == 0 || !IsFence(lines[0]) {
      return Parsed(None, text, false);
    }
    var closing := 1;
    while closing < |lines| && !IsFence(lines[closing])
      invariant 1 <= closing <= |lines| && NextFence(lines, 1) == NextFence(lines, closing)
    {
      closing := closing + 1;
    }
    if closing == |lines| {
      return Parsed(None, text, true);
    }
    var state := ReadFields(lines[1..closing]);
    parsed := Parsed(Some(state), Concat(lines[closing + 1..]), true);
  }

  /** The loop over the lines between the fences. */
  method ReadFields(lines: seq<string>) returns (state: State)
    requires forall i :: 0 <= i < |lines| ==> lines[i] != ""
    ensures state == ReadLines(START, lines)
    ensures BlockReadsAs(lines, state)
  {
    hide BlockReadsAs, Trim, ParseScalar, MatchKey, StripQuotes;
    var fields: map<string, Value> := map[];
    var malformed := false;
    var current: Option<string> := None;
    var i := 0;
    while i < |lines|
      invariant 0 <= i <= |lines|
      invariant State(fields, malformed, current) == ReadLines(START, lines[..i])
    {
      var line := lines[i];
      assert lines[..i + 1][..i] == lines[..i];
      i := i + 1;
      var stripped := Strip(line);
      if stripped == "" || stripped[0] == '#' {
        continue;
      }
      if PySpace(line[0]) && stripped[0] == '-' && current.Some? {
        var key := current.value;
        if key !in fields || !fields[key].List? {
          fields := fields[key := List([])];
        }
        fields := fields[key := List(fields[key].items + [StripQuotes(Strip(stripped[1..]))])];
        continue;
      }
      match MatchKey(stripped) {
        case None =>
          malformed := true;
          current := None;
        case Some((key, raw)) =>
          var value := ParseScalar(raw);
          fields := fields[key := value];
          current := if value.List? && raw == "" then Some(key) else None;
      }
    }
    assert lines[..i] == lines;
    state := State(fields, malformed, current);
    BlockRead(lines);
  }

  // ---- The printer ----

  datatype Field = ScalarField(key: string, text: string) | ListField(key: string, items: seq<string>)

  function ItemLines(items: seq<string>): (lines: seq<string>)
    ensures forall i :: 0 <= i < |lines| ==> lines[i] != ""
  {
    seq(|items|, i requires 0 <= i < |items| => "  - " + items[i] + "\n")
  }

  function FieldLines(f: Field): seq<string> {
    match f
    case ScalarField(key, text) => [key + ": " + text + "\n"]
    case ListField(key, items) => [key + ":\n"] + ItemLines(items)
  }

  function BlockLines(fields: seq<Field>): seq<string> {
    if fields == [] then [] else BlockLines(fields[..|fields| - 1]) + FieldLines(fields[|fields| - 1])
  }

  const FENCE := "---\n"

  function Print(fields: seq<Field>, body: string): string {
    FENCE + Concat(BlockLines(fields)) + FENCE + body
  }

  /** What the fields say. */
  function Meaning(fields: seq<Field>): map<string, Value> {
    if fields == [] then map[]
    else
      var f := fields[|fields| - 1];
      Meaning(fields[..|fields| - 1])[f.key := FieldValue(f)]
  }

  ghost predicate Printable(f: Field) {
    IsKey(f.key) &&
    match f
    case ScalarField(_, text) => Plain(text) && OneLine(text)
    case ListField(_, items) => forall i :: 0 <= i < |items| ==> PlainItem(items[i]) && OneLine(items[i])
  }

  // ---- One line at a time ----

  lemma KeyOneLine(key: string)
    requires IsKey(key)
    ensures OneLine(key) && forall i :: 0 <= i < |key| ==> !PySpace(key[i])
  {
  }

  lemma {:induction false} KeyLengthOf(key: string, rest: string)
    requires forall i :: 0 <= i < |key| ==> IsKeyChar(key[i])
    requires rest != "" && !IsKeyChar(rest[0])
    ensures KeyLength(key + rest) == |key|
  {
    if key != [] {
      assert (key + rest)[1..] == key[1..] + rest;
      KeyLengthOf(key[1..], rest);
    } else {
      assert key + rest == rest;
    }
  }

  lemma MatchesKey(key: string, rest: string)
    requires IsKey(key)
    ensures MatchKey(key + ":" + rest) == Some((key, TrimLeft(rest, PySpace)))
  {
    assert key + ":" + rest == key + (":" + rest);
    KeyLengthOf(key, ":" + rest);
    var s := key + ":" + rest;
    assert s[..|key|] == key && s[|key| + 1..] == rest;
  }

  /** Stripping a line end, and the white space in front of a text that has none of its own. */
  lemma StripLine(indent: string, s: string, end: string)
    requires (forall i :: 0 <= i < |indent| ==> PySpace(indent[i])) && (forall i :: 0 <= i < |end| ==> PySpace(end[i]))
    requires s != "" && Trimmed(s, PySpace)
    ensures Strip(indent + s + end) == s
  {
    hide TrimLeft, TrimRight, PySpace;
    var t := s + end;
    assert indent + s + end == indent + t && t[0] == s[0];
    TrimLeftPast(indent, t);
    TrimRightPast(s, end);
  }

  lemma {:induction false} TrimLeftPast(indent: string, s: string)
    requires (forall i :: 0 <= i < |indent| ==> PySpace(indent[i])) && s != "" && !PySpace(s[0])
    ensures TrimLeft(indent + s, PySpace) == s
  {
    if indent != [] {
      assert (indent + s)[1..] == indent[1..] + s;
      TrimLeftPast(indent[1..], s);
    } else {
      assert indent + s == s;
    }
  }

  lemma {:induction false} TrimRightPast(s: string, end: string)
    requires (forall i :: 0 <= i < |end| ==> PySpace(end[i])) && s != "" && !PySpace(s[|s| - 1])
    ensures TrimRight(s + end, PySpace) == s
  {
    if end != [] {
      assert (s + end)[..|s + end| - 1] == s + end[..|end| - 1];
      TrimRightPast(s, end[..|end| - 1]);
    } else {
      assert s + end == s;
    }
  }

  /** A line that is a key, a colon and a text. */
  lemma ReadKeyLine(st: State, key: string, rest: string)
    requires IsKey(key) && Trimmed(key + ":" + rest, PySpace)
    ensures !IsFence(key + ":" + rest + "\n")
    ensures ReadLine(st, key + ":" + rest + "\n") ==
      var raw := TrimLeft(rest, PySpace); var value := ParseScalar(raw);
      st.(fields := st.fields[key := value], current := if value.List? && raw == "" then Some(key) else None)
  {
    var s := key + ":" + rest;
    assert s[0] == key[0];
    TextOfLine(s);
    MatchesKey(key, rest);
    ReadMatchedLine(st, s + "\n", s, key, TrimLeft(rest, PySpace));
    hide Strip, MatchKey, ReadLine, TrimLeft, ParseScalar, IsFence;
  }

  lemma ReadMatchedLine(st: State, line: string, s: string, key: string, raw: string)
    requires line != "" && Strip(line) == s && s != "" && IsLetter(s[0]) && MatchKey(s) == Some((key, raw))
    ensures !IsFence(line)
    ensures ReadLine(st, line) ==
      var value := ParseScalar(raw);
      st.(fields := st.fields[key := value], current := if value.List? && raw == "" then Some(key) else None)
  {
    hide Strip, MatchKey, ParseScalar, PySpace;
  }

  lemma TextOfLine(s: string)
    requires s != "" && Trimmed(s, PySpace)
    ensures Strip(s + "\n") == s
  {
    assert PySpace('\n');
    StripLine("", s, "\n");
    assert "" + s + "\n" == s + "\n";
  }

  lemma ReadScalarLine(st: State, key: string, text: string)
    requires Printable(ScalarField(key, text))
    ensures !IsFence(key + ": " + text + "\n")
    ensures ReadLine(st, key + ": " + text + "\n") == st.(fields := st.fields[key := Scalar(text)], current := None)
  {
    hide Trim, TrimLeft, ParseScalar, ReadLine, IsFence;
    KeyOneLine(key);
    assert key + ":" + (" " + text) == key + ": " + text;
    ReadKeyLine(st, key, " " + text);
    TrimLeftPast(" ", text);
    PlainScalarRoundTrip(text);
  }

  lemma EmptyValue()
    ensures TrimLeft("", PySpace) == "" && ParseScalar("") == List([])
  {
  }

  lemma ReadListLine(st: State, key: string)
    requires IsKey(key)
    ensures !IsFence(key + ":\n")
    ensures ReadLine(st, key + ":\n") == st.(fields := st.fields[key := List([])], current := Some(key))
  {
    hide Trim, TrimLeft, ParseScalar, ReadLine, IsFence, PySpace;
    EmptyValue();
    assert !PySpace(':') by { ColonIsNoSpace(); }
    KeyOneLine(key);
    assert key + ":" + "" == key + ":" && key + ":" + "\n" == key + ":\n";
    assert (key + ":")[0] == key[0];
    ReadKeyLine(st, key, "");
  }

  lemma ColonIsNoSpace()
    ensures !PySpace(':') && !PySpace('-') && PySpace(' ') && PySpace('\n')
  {
  }

  lemma ItemText(item: string)
    requires PlainItem(item)
    ensures var stripped := Strip("  - " + item + "\n");
      stripped != "" && stripped[0] == '-' && stripped != "---" && StripQuotes(Strip(stripped[1..])) == item
  {
    ColonIsNoSpace();
    PlainItemRoundTrip(item);
    hide Trim, PySpace, StripQuotes;
    var line := "  - " + item + "\n";
    if item == "" {
      StripLine("  ", "-", " \n");
      assert "  " + "-" + " \n" == line;
      assert "-"[1..] == "";
    } else {
      var s := "- " + item;
      StripLine("  ", s, "\n");
      assert "  " + s + "\n" == line;
      StripLine(" ", item, "");
      assert " " + item + "" == s[1..];
      assert s[1] == ' ' && "---"[1] == '-';
      assert Strip(item) == item by { StripLine("", item, ""); assert "" + item + "" == item; }
    }
  }

  lemma ReadItemLine(st: State, item: string)
    requires PlainItem(item)
    requires st.current.Some? && st.current.value in st.fields && st.fields[st.current.value].List?
    ensures !IsFence("  - " + item + "\n")
    ensures ReadLine(st, "  - " + item + "\n") ==
            st.(fields := st.fields[st.current.value := List(st.fields[st.current.value].items + [item])])
  {
    ColonIsNoSpace();
    ItemText(item);
    var line := "  - " + item + "\n";
    assert line[0] == ' ';
    hide Trim, StripQuotes, PySpace;
  }

  // ---- Whole blocks ----

  lemma {:induction false} ReadLinesAppend(st: State, a: seq<string>, b: seq<string>)
    requires (forall i :: 0 <= i < |a| ==> a[i] != "") && (forall i :: 0 <= i < |b| ==> b[i] != "")
    ensures ReadLines(st, a + b) == ReadLines(ReadLines(st, a), b)
  {
    if b == [] {
      assert a + b == a;
    } else {
      assert (a + b)[..|a + b| - 1] == a + b[..|b| - 1];
      ReadLinesAppend(st, a, b[..|b| - 1]);
    }
  }

  /** The list-continuation state: each item line extends the list of the key above. */
  lemma {:induction false} ReadItems(st: State, items: seq<string>)
    requires forall i :: 0 <= i < |items| ==> PlainItem(items[i])
    requires st.current.Some? && st.current.value in st.fields && st.fields[st.current.value] == List([])
    ensures ReadLines(st, ItemLines(items)) == st.(fields := st.fields[st.current.value := List(items)])
  {
    hide PlainItem, ReadLine, IsFence;
    if items == [] {
      assert st.fields[st.current.value := List([])] == st.fields;
    } else {
      var last := |items| - 1;
      var lines := ItemLines(items);
      assert lines[..last] == ItemLines(items[..last]);
      ReadItems(st, items[..last]);
      ReadItemLine(ReadLines(st, lines[..last]), items[last]);
      assert items[..last] + [items[last]] == items;
    }
  }

  /** `line` neither ends the block nor breaks into two lines. */
  ghost predicate InnerLine(line: string) {
    IsLine(line) && !IsFence(line)
  }

  lemma IsLineOf(s: string)
    requires OneLine(s)
    ensures IsLine(s + "\n")
  {
  }

  function FieldValue(f: Field): Value {
    match f
    case ScalarField(_, text) => Scalar(text)
    case ListField(_, items) => List(items)
  }

  lemma ReadOne(st: State, line: string)
    requires line != ""
    ensures ReadLines(st, [line]) == ReadLine(st, line)
  {
    hide ReadLine;
    assert [line][..0] == [];
  }

  lemma ScalarFieldLine(st: State, f: Field)
    requires f.ScalarField? && Printable(f)
    ensures |FieldLines(f)| == 1 && FieldLines(f)[0] != "" && InnerLine(FieldLines(f)[0])
    ensures ReadLines(st, FieldLines(f)) == st.(fields := st.fields[f.key := Scalar(f.text)], current := None)
  {
    KeyOneLine(f.key);
    var s := f.key + ": " + f.text;
    assert OneLine(s);
    ReadScalarLine(st, f.key, f.text);
    hide ReadLine, IsLine, IsFence, OneLine, ReadLines;
    IsLineOf(s);
    ReadOne(st, s + "\n");
  }

  lemma HeaderInner(key: string)
    requires IsKey(key)
    ensures InnerLine(key + ":\n")
  {
    KeyOneLine(key);
    assert OneLine(key + ":");
    hide ReadLine, IsFence, IsLine;
    ReadListLine(START, key);
    IsLineOf(key + ":");
    assert key + ":" + "\n" == key + ":\n";
  }

  lemma ItemInner(item: string)
    requires PlainItem(item) && OneLine(item)
    ensures InnerLine("  - " + item + "\n")
  {
    assert OneLine("  - " + item);
    hide ReadLine, IsFence, IsLine, PlainItem;
    ReadItemLine(State(map["" := List([])], false, Some("")), item);
    IsLineOf("  - " + item);
  }

  lemma ListFieldInner(key: string, items: seq<string>)
    requires IsKey(key) && forall i :: 0 <= i < |items| ==> PlainItem(items[i]) && OneLine(items[i])
    ensures var lines := [key + ":\n"] + ItemLines(items);
      forall i :: 0 <= i < |lines| ==> lines[i] != "" && InnerLine(lines[i])
  {
    hide InnerLine, PlainItem, OneLine, IsKey;
    HeaderInner(key);
    forall i | 0 <= i < |items| ensures InnerLine(ItemLines(items)[i]) && ItemLines(items)[i] != "" {
      ItemInner(items[i]);
    }
    hide ItemLines;
  }

  lemma ListFieldRead(st: State, key: string, items: seq<string>)
    requires IsKey(key) && forall i :: 0 <= i < |items| ==> PlainItem(items[i])
    ensures ReadLines(st, [key + ":\n"] + ItemLines(items)) == st.(fields := st.fields[key := List(items)], current := Some(key))
  {
    var header, lines := key + ":\n", ItemLines(items);
    hide ReadLine, ReadLines, PlainItem, IsKey, IsFence, ItemLines;
    ReadListLine(st, key);
    var start := ReadLine(st, header);
    ReadItems(start, items);
    ReadOne(st, header);
    ReadLinesAppend(st, [header], lines);
    SetTwice(st.fields, key, List([]), List(items));
  }

  lemma SetTwice(fields: map<string, Value>, key: string, first: Value, second: Value)
    ensures fields[key := first][key := second] == fields[key := second]
  {
  }

  lemma ReadField(st: State, f: Field)
    requires Printable(f)
    ensures forall i :: 0 <= i < |FieldLines(f)| ==> FieldLines(f)[i] != "" && InnerLine(FieldLines(f)[i])
    ensures ReadLines(st, FieldLines(f)).malformed == st.malformed
    ensures ReadLines(st, FieldLines(f)).fields == st.fields[f.key := FieldValue(f)]
  {
    match f {
      case ScalarField(_, _) => ScalarFieldLine(st, f);
      case ListField(key, items) =>
        ListFieldInner(key, items);
        ListFieldRead(st, key, items);
    }
    hide FieldLines, InnerLine, Printable, ReadLines;
  }

  lemma {:induction false} ReadBlock(fields: seq<Field>)
    requires forall i :: 0 <= i < |fields| ==> Printable(fields[i])
    ensures forall i :: 0 <= i < |BlockLines(fields)| ==> BlockLines(fields)[i] != "" && InnerLine(BlockLines(fields)[i])
    ensures !ReadLines(START, BlockLines(fields)).malformed
    ensures ReadLines(START, BlockLines(fields)).fields == Meaning(fields)
  {
    hide FieldLines, InnerLine, Printable, ReadLine, FieldValue;
    if fields == [] {
      assert ReadLines(START, BlockLines(fields)) == START;
    } else {
      var before, last := fields[..|fields| - 1], fields[|fields| - 1];
      ReadBlock(before);
      var a, b := BlockLines(before), FieldLines(last);
      assert BlockLines(fields) == a + b;
      hide ReadLines, BlockLines;
      ReadField(ReadLines(START, a), last);
      ReadLinesAppend(START, a, b);
    }
  }

  lemma FenceLine()
    ensures IsFence(FENCE) && IsLine(FENCE)
  {
    assert !PySpace('-') by { ColonIsNoSpace(); }
    TextOfLine("---");
    IsLineOf("---");
    assert "---" + "\n" == FENCE;
  }

  lemma {:induction false} NextFenceAfter(lines: seq<string>, from: nat, n: nat)
    requires from <= n < |lines| && IsFence(lines[n]) && forall i :: from <= i < n ==> !IsFence(lines[i])
    ensures NextFence(lines, from) == n
    decreases n - from
  {
    hide IsFence;
    if from < n {
      NextFenceAfter(lines, from + 1, n);
    }
  }

  /**
    Parsing a printed block gives back exactly the fields, with nothing malformed, and the body as it
    was, whatever the body holds.
   */
  lemma ParsePrinted(fields: seq<Field>, body: string)
    requires forall i :: 0 <= i < |fields| ==> Printable(fields[i])
    ensures var parsed := Parse(Print(fields, body));
      && parsed.present && parsed.front.Some? && parsed.body == body
      && !parsed.front.value.malformed && parsed.front.value.fields == Meaning(fields)
  {
    ReadBlock(fields);
    FenceLine();
    LinesConcat(body);
    PrintedLines(fields, body);
    BlockParses(BlockLines(fields), Lines(body), Print(fields, body));
    hide Lines, InnerLine, BlockLines, Printable, Meaning, ReadLines, Concat, Parse, Print;
  }

  /** A text whose lines are a fence, a block, a fence and the rest. */
  lemma BlockParses(block: seq<string>, rest: seq<string>, text: string)
    requires Lines(text) == [FENCE] + block + [FENCE] + rest && IsFence(FENCE)
    requires forall i :: 0 <= i < |block| ==> block[i] != "" && InnerLine(block[i])
    ensures Parse(text) == Parsed(Some(ReadLines(START, block)), Concat(rest), true)
  {
    hide IsFence, Lines, IsLine, ReadLines, Concat;
    var lines, n := [FENCE] + block + [FENCE] + rest, |block| + 1;
    assert lines[0] == FENCE && lines[n] == FENCE;
    forall i | 1 <= i < n ensures !IsFence(lines[i]) {
      assert lines[i] == block[i - 1];
    }
    NextFenceAfter(lines, 1, n);
    assert lines[1..n] == block && lines[n + 1..] == rest;
  }

  lemma PrintedLines(fields: seq<Field>, body: string)
    requires forall i :: 0 <= i < |BlockLines(fields)| ==> InnerLine(BlockLines(fields)[i])
    ensures Lines(Print(fields, body)) == [FENCE] + BlockLines(fields) + [FENCE] + Lines(body)
  {
    FenceLine();
    var block := BlockLines(fields);
    hide BlockLines, IsFence, Lines, IsLine;
    var head := [FENCE] + block + [FENCE];
    ConcatAppend([FENCE] + block, [FENCE]);
    ConcatAppend([FENCE], block);
    assert Concat([FENCE]) == FENCE by { assert [FENCE][1..] == []; assert FENCE + "" == FENCE; }
    assert Print(fields, body) == Concat(head) + body;
    LinesOfConcat(head, body);
  }

  lemma {:induction false} ConcatAppend(a: seq<string>, b: seq<string>)
    ensures Concat(a + b) == Concat(a) + Concat(b)
  {
    if a == [] {
      assert a + b == b;
    } else {
      assert (a + b)[1..] == a[1..] + b;
      ConcatAppend(a[1..], b);
    }
  }

  /** With distinct keys every field is found under its key with its own value. */
  lemma {:induction false} MeaningAt(fields: seq<Field>, i: nat)
    requires i < |fields| && forall j, k :: 0 <= j < k < |fields| ==> fields[j].key != fields[k].key
    ensures fields[i].key in Meaning(fields)
    ensures Meaning(fields)[fields[i].key] == FieldValue(fields[i])
  {
    var last := |fields| - 1;
    if i < last {
      MeaningAt(fields[..last], i);
      assert fields[i].key != fields[last].key;
    }
  }

  // ---- Any text ----

  /** A blank line or a comment. */
  predicate Skipped(line: string) {
    Strip(line) == "" || Strip(line)[0] == '#'
  }

  /** An indented line that begins with a dash. */
  predicate ItemLike(line: string) {
    line != "" && PySpace(line[0]) && Strip(line) != "" && Strip(line)[0] == '-'
  }

  function ItemOf(line: string): string
    requires ItemLike(line)
  {
    StripQuotes(Strip(Strip(line)[1..]))
  }

  /** A line of a key, a colon and a text. */
  predicate HasKey(line: string, key: string, rest: string) {
    IsKey(key) && Strip(line) == key + ":" + rest
  }

  ghost predicate KeyLine(line: string) {
    exists key, rest :: HasKey(line, key, rest)
  }

  /** Line j opens the list of `key`, and only items, blank lines and comments stand between it and i. */
  predicate OpenAt(lines: seq<string>, j: nat, i: nat, key: string) {
    j < i <= |lines| && HasKey(lines[j], key, "") && forall k :: j < k < i ==> Skipped(lines[k]) || ItemLike(lines[k])
  }

  ghost predicate KeyOpen(lines: seq<string>, i: nat, key: string) {
    exists j: nat :: OpenAt(lines, j, i, key)
  }

  ghost predicate ListOpen(lines: seq<string>, i: nat) {
    exists key :: KeyOpen(lines, i, key)
  }

  /** The line is no blank line, no comment, no key with a text, and no item of an open list. */
  ghost predicate BadAt(lines: seq<string>, i: nat)
    requires i < |lines|
  {
    !Skipped(lines[i]) && !KeyLine(lines[i]) && !(ItemLike(lines[i]) && ListOpen(lines, i))
  }

  ghost predicate AnyBad(lines: seq<string>) {
    exists i :: 0 <= i < |lines| && BadAt(lines, i)
  }

  lemma MatchKeyFound(s: string)
    requires MatchKey(s).Some?
    ensures IsKey(MatchKey(s).value.0) && s == MatchKey(s).value.0 + ":" + s[KeyLength(s) + 1..]
    ensures MatchKey(s).value.1 == TrimLeft(s[KeyLength(s) + 1..], PySpace)
  {
    hide PySpace, TrimLeft, KeyLength;
    var n := KeyLength(s);
    assert s == s[..n] + s[n..n + 1] + s[n + 1..] && s[n..n + 1] == ":";
  }

  lemma KeyIsFound(line: string, key: string, rest: string)
    requires HasKey(line, key, rest)
    ensures MatchKey(Strip(line)) == Some((key, TrimLeft(rest, PySpace)))
    ensures !Skipped(line) && !ItemLike(line) && (rest == "" <==> TrimLeft(rest, PySpace) == "")
  {
    MatchesKey(key, rest);
    var s := Strip(line);
    assert s[0] == key[0];
    if rest != "" {
      assert s[|s| - 1] == rest[|rest| - 1];
    }
  }

  lemma KeyLineIff(line: string)
    ensures KeyLine(line) <==> MatchKey(Strip(line)).Some?
  {
    var s := Strip(line);
    if MatchKey(s).Some? {
      MatchKeyFound(s);
      assert HasKey(line, MatchKey(s).value.0, s[KeyLength(s) + 1..]);
    }
    if key, rest :| HasKey(line, key, rest) {
      KeyIsFound(line, key, rest);
    }
  }

  lemma KeyLineRead(st: State, line: string, key: string, rest: string)
    requires line != "" && HasKey(line, key, rest)
    ensures ReadLine(st, line) == State(st.fields[key := ParseScalar(TrimLeft(rest, PySpace))], st.malformed, if rest == "" then Some(key) else None)
  {
    KeyIsFound(line, key, rest);
    EmptyValue();
    hide Trim, PySpace, ParseScalar, MatchKey, IsKey;
  }

  /** What a line does to the flag and to the open list. */
  lemma LineKinds(st: State, line: string)
    requires line != ""
    ensures Skipped(line) ==> ReadLine(st, line) == st
    ensures ItemLike(line) && st.current.Some? ==>
      ReadLine(st, line).malformed == st.malformed && ReadLine(st, line).current == st.current
    ensures forall key, rest :: HasKey(line, key, rest) ==>
      ReadLine(st, line) == State(st.fields[key := ParseScalar(TrimLeft(rest, PySpace))], st.malformed, if rest == "" then Some(key) else None)
    ensures !Skipped(line) && !KeyLine(line) && !(ItemLike(line) && st.current.Some?) ==>
      ReadLine(st, line) == State(st.fields, true, None)
  {
    hide Trim, PySpace, ParseScalar, MatchKey, IsKey;
    KeyLineIff(line);
    forall key, rest | HasKey(line, key, rest)
      ensures ReadLine(st, line) == State(st.fields[key := ParseScalar(TrimLeft(rest, PySpace))], st.malformed, if rest == "" then Some(key) else None)
    {
      KeyLineRead(st, line, key, rest);
    }
  }

  lemma OpenAtNext(lines: seq<string>, line: string, j: nat, key: string)
    ensures OpenAt(lines + [line], j, |lines| + 1, key) <==>
      (j == |lines| && HasKey(line, key, "")) || (OpenAt(lines, j, |lines|, key) && (Skipped(line) || ItemLike(line)))
  {
    hide HasKey, Skipped, ItemLike;
    var all := lines + [line];
    assert forall k :: 0 <= k < |lines| ==> all[k] == lines[k];
    assert all[|lines|] == line;
  }

  lemma KeyOpenNext(lines: seq<string>, line: string, key: string)
    ensures KeyOpen(lines + [line], |lines| + 1, key) <==>
      HasKey(line, key, "") || (KeyOpen(lines, |lines|, key) && (Skipped(line) || ItemLike(line)))
  {
    hide OpenAt, HasKey, Skipped, ItemLike;
    OpenAtNext(lines, line, |lines|, key);
    if KeyOpen(lines + [line], |lines| + 1, key) {
      var j: nat :| OpenAt(lines + [line], j, |lines| + 1, key);
      OpenAtNext(lines, line, j, key);
    }
    if KeyOpen(lines, |lines|, key) {
      var j: nat :| OpenAt(lines, j, |lines|, key);
      OpenAtNext(lines, line, j, key);
    }
  }

  lemma KeyOpenPrefix(lines: seq<string>, more: seq<string>, i: nat, key: string)
    requires i <= |lines|
    ensures KeyOpen(lines + more, i, key) <==> KeyOpen(lines, i, key)
  {
    hide HasKey, Skipped, ItemLike, OpenAt;
    forall j: nat ensures OpenAt(lines + more, j, i, key) <==> OpenAt(lines, j, i, key) {
      OpenAtPrefix(lines, more, j, i, key);
    }
  }

  lemma OpenAtPrefix(lines: seq<string>, more: seq<string>, j: nat, i: nat, key: string)
    requires i <= |lines|
    ensures OpenAt(lines + more, j, i, key) <==> OpenAt(lines, j, i, key)
  {
    hide HasKey, Skipped, ItemLike;
    assert forall k :: 0 <= k < |lines| ==> (lines + more)[k] == lines[k];
  }

  lemma ReadNext(before: seq<string>, line: string)
    requires (forall i :: 0 <= i < |before| ==> before[i] != "") && line != ""
    ensures forall i :: 0 <= i < |before + [line]| ==> (before + [line])[i] != ""
    ensures ReadLines(START, before + [line]) == ReadLine(ReadLines(START, before), line)
  {
    hide ReadLine;
    assert (before + [line])[..|before|] == before;
  }

  /** Item lines extend the list of a key exactly while the list is open. */
  lemma {:induction false} CurrentIff(lines: seq<string>, key: string)
    requires forall i :: 0 <= i < |lines| ==> lines[i] != ""
    ensures ReadLines(START, lines).current == Some(key) <==> KeyOpen(lines, |lines|, key)
  {
    if lines == [] {
      assert ReadLines(START, []).current.None?;
    } else {
      hide *;
      var n := |lines| - 1;
      var before, line := lines[..n], lines[n];
      assert lines == before + [line];
      CurrentIff(before, key);
      ReadNext(before, line);
      KeyOpenNext(before, line, key);
      LineStep(ReadLines(START, before), line, key);
    }
  }

  /** The open list after a line. */
  lemma LineStep(st: State, line: string, key: string)
    requires line != ""
    ensures ReadLine(st, line).current == Some(key) <==>
      HasKey(line, key, "") || (st.current == Some(key) && (Skipped(line) || ItemLike(line)))
  {
    LineKinds(st, line);
    hide ReadLine, Skipped, ItemLike, HasKey;
    if key', rest :| HasKey(line, key', rest) {
      KeyIsFound(line, key', rest);
      OneKey(line, key', rest, key, "");
    } else {
      assert !HasKey(line, key, "");
    }
  }

  lemma OneKey(line: string, key: string, rest: string, key': string, rest': string)
    requires HasKey(line, key, rest)
    ensures HasKey(line, key', rest') <==> key == key' && rest == rest'
  {
    if HasKey(line, key', rest') {
      KeyIsFound(line, key, rest);
      KeyIsFound(line, key', rest');
      assert Strip(line)[|key| + 1..] == rest && Strip(line)[|key'| + 1..] == rest';
    }
  }

  /** A block is malformed exactly when one of its lines is bad. */
  lemma {:induction false} MalformedIff(lines: seq<string>)
    requires forall i :: 0 <= i < |lines| ==> lines[i] != ""
    ensures ReadLines(START, lines).malformed <==> AnyBad(lines)
  {
    if lines == [] {
      assert !ReadLines(START, []).malformed;
    } else {
      hide *;
      var n := |lines| - 1;
      var before, line := lines[..n], lines[n];
      assert lines == before + [line];
      MalformedIff(before);
      ReadNext(before, line);
      AnyBadNext(before, line);
      LastBad(before, line);
    }
  }

  lemma AnyBadNext(before: seq<string>, line: string)
    ensures AnyBad(before + [line]) <==> AnyBad(before) || BadAt(before + [line], |before|)
  {
    hide BadAt;
    forall i | 0 <= i < |before| ensures BadAt(before, i) <==> BadAt(before + [line], i) {
      BadAtPrefix(before, line, i);
    }
    if i :| 0 <= i < |before| && BadAt(before, i) {
      assert BadAt(before + [line], i);
    }
    if i :| 0 <= i < |before + [line]| && BadAt(before + [line], i) {
      assert i < |before| ==> BadAt(before, i);
    }
  }

  lemma BadAtPrefix(before: seq<string>, line: string, i: nat)
    requires i < |before|
    ensures BadAt(before, i) <==> BadAt(before + [line], i)
  {
    hide Skipped, ItemLike, KeyLine, ListOpen;
    ListOpenPrefix(before, [line], i);
  }

  lemma LastBad(before: seq<string>, line: string)
    requires (forall i :: 0 <= i < |before| ==> before[i] != "") && line != ""
    ensures var st := ReadLines(START, before);
      ReadLine(st, line).malformed <==> st.malformed || BadAt(before + [line], |before|)
  {
    hide Skipped, ItemLike, KeyLine, ListOpen, ReadLine, ReadLines;
    ListOpenPrefix(before, [line], |before|);
    ListOpenIff(before);
    FlagStep(ReadLines(START, before), line);
  }

  lemma ListOpenPrefix(lines: seq<string>, more: seq<string>, i: nat)
    requires i <= |lines|
    ensures ListOpen(lines + more, i) <==> ListOpen(lines, i)
  {
    hide KeyOpen;
    forall key ensures KeyOpen(lines + more, i, key) <==> KeyOpen(lines, i, key) {
      KeyOpenPrefix(lines, more, i, key);
    }
  }

  lemma ListOpenIff(lines: seq<string>)
    requires forall i :: 0 <= i < |lines| ==> lines[i] != ""
    ensures ReadLines(START, lines).current.Some? <==> ListOpen(lines, |lines|)
  {
    hide KeyOpen, ReadLines;
    var current := ReadLines(START, lines).current;
    if current.Some? {
      CurrentIff(lines, current.value);
    }
    forall key | KeyOpen(lines, |lines|, key) ensures current.Some? {
      CurrentIff(lines, key);
    }
  }

  lemma FlagStep(st: State, line: string)
    requires line != ""
    ensures ReadLine(st, line).malformed <==>
      st.malformed || (!Skipped(line) && !KeyLine(line) && !(ItemLike(line) && st.current.Some?))
  {
    LineKinds(st, line);
    hide ReadLine, Skipped, ItemLike, HasKey;
    if key, rest :| HasKey(line, key, rest) {
      assert KeyLine(line);
    }
  }

  // ---- The fields of any block ----

  /** The items of the lines from a place on, up to the first line that is neither item, blank nor comment. */
  function ItemsFrom(lines: seq<string>, from: nat): seq<string>
    requires from <= |lines|
    decreases |lines| - from
  {
    if from == |lines| || !(Skipped(lines[from]) || ItemLike(lines[from])) then []
    else (if ItemLike(lines[from]) then [ItemOf(lines[from])] else []) + ItemsFrom(lines, from + 1)
  }

  predicate OnlyItemsFrom(lines: seq<string>, from: nat) {
    forall k :: from <= k < |lines| ==> Skipped(lines[k]) || ItemLike(lines[k])
  }

  lemma {:induction false} ItemsNext(lines: seq<string>, line: string, from: nat)
    requires from <= |lines|
    ensures ItemsFrom(lines + [line], from) ==
      ItemsFrom(lines, from) + if OnlyItemsFrom(lines, from) && ItemLike(line) then [ItemOf(line)] else []
    decreases |lines| - from
  {
    hide Skipped, ItemLike, ItemOf;
    var all := lines + [line];
    if from == |lines| {
      assert all[from] == line && ItemsFrom(all, from + 1) == [];
      SkippedIsNoItem(line);
    } else {
      assert all[from] == lines[from];
      ItemsNext(lines, line, from + 1);
      assert OnlyItemsFrom(lines, from) <==> (Skipped(lines[from]) || ItemLike(lines[from])) && OnlyItemsFrom(lines, from + 1);
    }
  }

  lemma SkippedIsNoItem(line: string)
    ensures !(Skipped(line) && ItemLike(line))
  {
  }

  /** Line h is the last one with this key. */
  ghost predicate LastKey(lines: seq<string>, h: nat, key: string, rest: string)
    requires h < |lines|
  {
    HasKey(lines[h], key, rest) && forall k, r :: h < k < |lines| ==> !HasKey(lines[k], key, r)
  }

  function ValueOf(lines: seq<string>, h: nat, rest: string): Value
    requires h < |lines|
  {
    if rest == "" then List(ItemsFrom(lines, h + 1)) else ParseScalar(TrimLeft(rest, PySpace))
  }

  /** An item line adds its item to the open list and does nothing else. */
  lemma ItemStep(st: State, line: string)
    requires ItemLike(line) && st.current.Some? && st.current.value in st.fields && st.fields[st.current.value].List?
    ensures ReadLine(st, line).fields ==
      st.fields[st.current.value := List(st.fields[st.current.value].items + [ItemOf(line)])]
  {
    hide Trim, PySpace, MatchKey, ParseScalar;
  }

  /** The value of a key is what its last line gives it: the text after the colon, or the items that follow. */
  lemma {:induction false} FieldAt(lines: seq<string>, h: nat, key: string, rest: string)
    requires forall i :: 0 <= i < |lines| ==> lines[i] != ""
    requires h < |lines| && LastKey(lines, h, key, rest)
    ensures key in ReadLines(START, lines).fields && ReadLines(START, lines).fields[key] == ValueOf(lines, h, rest)
  {
    hide *;
    var n := |lines| - 1;
    var before, line := lines[..n], lines[n];
    assert lines == before + [line];
    ReadNext(before, line);
    var st := ReadLines(START, before);
    if h == n {
      KeyLineValue(st, before, line, key, rest);
    } else {
      LastKeyBefore(before, line, h, key, rest);
      FieldAt(before, h, key, rest);
      CurrentFrom(before, h, key, rest);
      ValueNext(before, line, h, rest);
      OpenIsList(before, h, rest);
      LaterLine(st, line, key);
    }
  }

  lemma OpenIsList(lines: seq<string>, h: nat, rest: string)
    requires h < |lines|
    ensures rest == "" ==> ValueOf(lines, h, rest) == List(ItemsFrom(lines, h + 1))
  {
  }

  lemma KeyLineValue(st: State, before: seq<string>, line: string, key: string, rest: string)
    requires line != "" && LastKey(before + [line], |before|, key, rest)
    ensures key in ReadLine(st, line).fields && ReadLine(st, line).fields[key] == ValueOf(before + [line], |before|, rest)
  {
    assert (before + [line])[|before|] == line;
    KeyLineRead(st, line, key, rest);
    hide ReadLine, HasKey, ParseScalar, PySpace, TrimLeft, KeyLine;
    if rest == "" {
      EmptyValue();
    }
  }

  lemma LastKeyBefore(before: seq<string>, line: string, h: nat, key: string, rest: string)
    requires h < |before| && LastKey(before + [line], h, key, rest)
    ensures LastKey(before, h, key, rest) && forall r :: !HasKey(line, key, r)
  {
    hide HasKey;
    var all := before + [line];
    forall k, r | h < k < |before| ensures !HasKey(before[k], key, r) {
      assert before[k] == all[k] && !HasKey(all[k], key, r);
    }
    forall r ensures !HasKey(line, key, r) {
      assert !HasKey(all[|before|], key, r);
    }
  }

  lemma ValueNext(before: seq<string>, line: string, h: nat, rest: string)
    requires h < |before|
    ensures ValueOf(before + [line], h, rest) ==
      if rest == "" && OnlyItemsFrom(before, h + 1) && ItemLike(line) then List(ItemsFrom(before, h + 1) + [ItemOf(line)])
      else ValueOf(before, h, rest)
  {
    hide Skipped, ItemLike, ItemOf, ParseScalar, OnlyItemsFrom;
    ItemsNext(before, line, h + 1);
  }

  /** While no later line has its key, the list of the key is open exactly if its line has no text and only
      items follow. */
  lemma CurrentFrom(lines: seq<string>, h: nat, key: string, rest: string)
    requires forall i :: 0 <= i < |lines| ==> lines[i] != ""
    requires h < |lines| && LastKey(lines, h, key, rest)
    ensures ReadLines(START, lines).current == Some(key) <==> rest == "" && OnlyItemsFrom(lines, h + 1)
  {
    hide *;
    CurrentIff(lines, key);
    OpenFromLast(lines, h, key, rest);
  }

  lemma OpenFromLast(lines: seq<string>, h: nat, key: string, rest: string)
    requires h < |lines| && LastKey(lines, h, key, rest)
    ensures KeyOpen(lines, |lines|, key) <==> rest == "" && OnlyItemsFrom(lines, h + 1)
  {
    hide Skipped, ItemLike, HasKey;
    KeyIsFound(lines[h], key, rest);
    OneKey(lines[h], key, rest, key, "");
    if rest == "" && OnlyItemsFrom(lines, h + 1) {
      assert OpenAt(lines, h, |lines|, key);
    }
    forall j: nat | OpenAt(lines, j, |lines|, key) ensures j == h {
      assert HasKey(lines[j], key, "");
    }
  }

  /** What a line without the key does to the field of the key. */
  lemma LaterLine(st: State, line: string, key: string)
    requires line != "" && key in st.fields && forall r :: !HasKey(line, key, r)
    requires st.current == Some(key) ==> st.fields[key].List?
    ensures key in ReadLine(st, line).fields
    ensures ReadLine(st, line).fields[key] ==
      if st.current == Some(key) && ItemLike(line) then List(st.fields[key].items + [ItemOf(line)]) else st.fields[key]
  {
    hide ReadLine, Skipped, ItemLike, HasKey, KeyLine, ItemOf;
    LineKinds(st, line);
    SkippedIsNoItem(line);
    if ItemLike(line) && st.current == Some(key) {
      ItemStep(st, line);
    } else if ItemLike(line) && st.current.Some? {
      OtherItemStep(st, line, key);
    } else if KeyLine(line) {
      OtherKeyLine(st, line, key);
    } else {
      NoKeyLine(line);
    }
  }

  lemma NoKeyLine(line: string)
    requires !KeyLine(line)
    ensures forall key, rest :: !HasKey(line, key, rest)
  {
  }

  lemma OtherKeyLine(st: State, line: string, key: string)
    requires line != "" && key in st.fields && KeyLine(line) && forall r :: !HasKey(line, key, r)
    ensures key in ReadLine(st, line).fields && ReadLine(st, line).fields[key] == st.fields[key] && !ItemLike(line)
  {
    LineKinds(st, line);
    hide ReadLine, Skipped, ItemLike, HasKey;
    var key', rest :| HasKey(line, key', rest);
    KeyIsFound(line, key', rest);
  }

  lemma OtherItemStep(st: State, line: string, key: string)
    requires ItemLike(line) && st.current.Some? && st.current.value != key && key in st.fields
    ensures key in ReadLine(st, line).fields && ReadLine(st, line).fields[key] == st.fields[key]
  {
    hide Trim, PySpace, MatchKey, ParseScalar;
  }

  ghost predicate HasKeyAt(lines: seq<string>, i: nat, key: string) {
    i < |lines| && exists rest :: HasKey(lines[i], key, rest)
  }

  ghost predicate Named(lines: seq<string>, key: string) {
    exists i: nat :: HasKeyAt(lines, i, key)
  }

  lemma NamedNext(before: seq<string>, line: string, key: string)
    ensures Named(before + [line], key) <==> Named(before, key) || exists rest :: HasKey(line, key, rest)
  {
    hide HasKey;
    var all := before + [line];
    forall i: nat ensures HasKeyAt(all, i, key) <==> HasKeyAt(before, i, key) || (i == |before| && exists rest :: HasKey(line, key, rest)) {
      if i < |before| {
        assert all[i] == before[i];
      } else if i == |before| {
        assert all[i] == line;
      }
    }
    if exists rest :: HasKey(line, key, rest) {
      assert HasKeyAt(all, |before|, key);
    }
    if i: nat :| HasKeyAt(before, i, key) {
      assert HasKeyAt(all, i, key);
    }
  }

  lemma OpenIsNamed(lines: seq<string>, key: string)
    requires KeyOpen(lines, |lines|, key)
    ensures Named(lines, key)
  {
    hide HasKey, Skipped, ItemLike;
    var j: nat :| OpenAt(lines, j, |lines|, key);
    assert HasKey(lines[j], key, "");
    assert HasKeyAt(lines, j, key);
  }

  /** Which keys a line adds. */
  lemma KeysStep(st: State, line: string, key: string)
    requires line != ""
    ensures key in ReadLine(st, line).fields <==>
      key in st.fields || (ItemLike(line) && st.current == Some(key)) || exists rest :: HasKey(line, key, rest)
  {
    LineKinds(st, line);
    if key', rest :| HasKey(line, key', rest) {
      KeyIsFound(line, key', rest);
      OtherKeys(line, key', rest, key);
      hide ReadLine, HasKey, Skipped, ItemLike;
    } else {
      assert forall rest :: !HasKey(line, key, rest);
      if ItemLike(line) && st.current.Some? {
        ItemKeys(st, line);
      }
      SkippedIsNoItem(line);
      hide ReadLine, HasKey, Skipped, ItemLike;
    }
  }

  lemma OtherKeys(line: string, key: string, rest: string, key': string)
    requires HasKey(line, key, rest)
    ensures (exists r :: HasKey(line, key', r)) <==> key == key'
  {
    forall r ensures HasKey(line, key', r) <==> key == key' && r == rest {
      OneKey(line, key, rest, key', r);
    }
    hide HasKey;
  }

  lemma ItemKeys(st: State, line: string)
    requires ItemLike(line) && st.current.Some?
    ensures ReadLine(st, line).fields.Keys == st.fields.Keys + {st.current.value}
  {
    hide Trim, PySpace, MatchKey, ParseScalar;
  }

  /** The fields are those of the keys that some line names, and no others. */
  lemma {:induction false} FieldsIff(lines: seq<string>, key: string)
    requires forall i :: 0 <= i < |lines| ==> lines[i] != ""
    ensures key in ReadLines(START, lines).fields <==> Named(lines, key)
  {
    if lines == [] {
      assert ReadLines(START, []).fields == map[];
    } else {
      hide *;
      var n := |lines| - 1;
      var before, line := lines[..n], lines[n];
      assert lines == before + [line];
      FieldsIff(before, key);
      ReadNext(before, line);
      NamedNext(before, line, key);
      KeysStep(ReadLines(START, before), line, key);
      CurrentIff(before, key);
      if KeyOpen(before, |before|, key) {
        OpenIsNamed(before, key);
      }
    }
  }

  // ---- The whole text ----

  /** Line n is the first fence behind the first line. */
  predicate ClosedAt(lines: seq<string>, n: nat) {
    1 <= n < |lines| && Strip(lines[n]) == "---" && forall i :: 1 <= i < n ==> Strip(lines[i]) != "---"
  }

  /** There is front matter exactly when the first line is a fence, and fields exactly when a later line is
      one as well. The body is what follows, or the whole text. A closed block is malformed exactly when one
      of its lines is bad; it has a field for exactly the keys its lines name, with the value of the last. */
  ghost predicate ReadsAs(text: string, parsed: Parsed) {
    var lines := Lines(text);
    && (parsed.present <==> lines != [] && Strip(lines[0]) == "---")
    && (parsed.front.Some? <==> parsed.present && exists n: nat :: 1 <= n < |lines| && Strip(lines[n]) == "---")
    && (parsed.front.None? ==> parsed.body == text)
    && forall n: nat :: parsed.present && ClosedAt(lines, n) ==>
         parsed.front.Some? && parsed.body == Concat(lines[n + 1..]) && BlockReadsAs(lines[1..n], parsed.front.value)
  }

  ghost predicate BlockReadsAs(block: seq<string>, st: State) {
    && (st.malformed <==> exists i :: 0 <= i < |block| && BadAt(block, i))
    && (forall key :: key in st.fields <==> Named(block, key))
    && (forall h, key, rest :: 0 <= h < |block| && LastKey(block, h, key, rest) ==>
          key in st.fields && st.fields[key] == ValueOf(block, h, rest))
  }

  lemma BlockRead(block: seq<string>)
    requires forall i :: 0 <= i < |block| ==> block[i] != ""
    ensures BlockReadsAs(block, ReadLines(START, block))
  {
    hide ReadLines, BadAt, Named, LastKey, ValueOf;
    MalformedIff(block);
    forall key ensures key in ReadLines(START, block).fields <==> Named(block, key) {
      FieldsIff(block, key);
    }
    forall h, key, rest | 0 <= h < |block| && LastKey(block, h, key, rest)
      ensures key in ReadLines(START, block).fields && ReadLines(START, block).fields[key] == ValueOf(block, h, rest)
    {
      FieldAt(block, h, key, rest);
    }
  }

  lemma {:induction false} FirstFence(lines: seq<string>, from: nat)
    requires from <= |lines|
    ensures var n := NextFence(lines, from);
      (n < |lines| ==> Strip(lines[n]) == "---") && forall i :: from <= i < n ==> Strip(lines[i]) != "---"
    decreases |lines| - from
  {
    hide Trim;
    if from < |lines| && !IsFence(lines[from]) {
      FirstFence(lines, from + 1);
    }
  }

  lemma ParseReads(text: string)
    ensures ReadsAs(text, Parse(text))
  {
    hide Lines, Trim, ReadLines, BlockReadsAs, Concat;
    var lines := Lines(text);
    if lines != [] && IsFence(lines[0]) {
      FirstFence(lines, 1);
      var n := NextFence(lines, 1);
      BlockRead(lines[1..n]);
      forall m: nat | ClosedAt(lines, m) ensures m == n {
      }
    }
  }

  // ---- Quotes and brackets ----

  /** A text in quotes is read as what stands between them. */
  lemma QuotedIsContents(text: string, quote: char)
    requires quote == '"' || quote == '\''
    ensures ParseScalar([quote] + text + [quote]) == Scalar(text)
  {
    var s := [quote] + text + [quote];
    QuotesAreNoSpaces();
    hide PySpace;
    assert s[0] == quote && s[|s| - 1] == quote && s[1..|s| - 1] == text;
    assert Strip(s) == s;
  }

  lemma QuotesAreNoSpaces()
    ensures !PySpace('"') && !PySpace('\'') && !PySpace('[') && !PySpace(']')
  {
  }

  function SpaceBefore(items: seq<string>): (r: seq<string>)
    ensures |r| == |items|
  {
    seq(|items|, i requires 0 <= i < |items| => if i == 0 then items[i] else " " + items[i])
  }

  lemma {:induction false} JoinedWithSpaces(items: seq<string>)
    requires items != []
    ensures Join(items, ", ") == Join(SpaceBefore(items), ",")
  {
    if |items| > 1 {
      JoinedWithSpaces(items[1..]);
      var rest := SpaceBefore(items)[1..];
      PutSpace(SpaceBefore(items[1..]), rest);
      assert Join(items, ", ") == items[0] + ("," + (" " + Join(items[1..], ", ")));
    }
  }

  lemma PutSpace(parts: seq<string>, spaced: seq<string>)
    requires parts != [] && |spaced| == |parts| && spaced[0] == " " + parts[0] && spaced[1..] == parts[1..]
    ensures Join(spaced, ",") == " " + Join(parts, ",")
  {
    assert |parts| > 1 ==> " " + parts[0] + "," + Join(parts[1..], ",") == " " + (parts[0] + "," + Join(parts[1..], ","));
  }

  lemma StripSpaced(item: string)
    requires item != "" && Trimmed(item, PySpace)
    ensures Strip(" " + item) == item
  {
    StripLine(" ", item, "");
    assert " " + item + "" == " " + item;
  }

  lemma {:induction false} JoinEnds(items: seq<string>)
    requires items != [] && forall i :: 0 <= i < |items| ==> items[i] != "" && Trimmed(items[i], PySpace)
    ensures Join(items, ", ") != "" && Trimmed(Join(items, ", "), PySpace)
  {
    hide PySpace;
    if |items| > 1 {
      JoinEnds(items[1..]);
    }
  }

  /** An inline list in brackets is read as its items. */
  lemma InlineListIsContents(items: seq<string>)
    requires items != []
    requires forall i :: 0 <= i < |items| ==> items[i] != "" && PlainItem(items[i]) && ',' !in items[i]
    ensures ParseScalar("[" + Join(items, ", ") + "]") == List(items)
  {
    BracketedJoin(items);
    hide PySpace, Trim, Split, Join, StripQuotes, ParseScalar, Trimmed;
    JoinedWithSpaces(items);
    NoCommas(items);
    SplitJoin(SpaceBefore(items), ',');
    forall i | 0 <= i < |items| ensures StripQuotes(Strip(SpaceBefore(items)[i])) == items[i] {
      ItemReadBack(items[i], i == 0);
    }
    assert StripAll(SpaceBefore(items)) == items;
  }

  lemma NoCommas(items: seq<string>)
    requires forall i :: 0 <= i < |items| ==> ',' !in items[i]
    ensures forall i :: 0 <= i < |items| ==> ',' !in SpaceBefore(items)[i]
  {
  }

  lemma BracketedJoin(items: seq<string>)
    requires items != []
    requires forall i :: 0 <= i < |items| ==> items[i] != "" && PlainItem(items[i])
    ensures ParseScalar("[" + Join(items, ", ") + "]") == List(StripAll(Split(Join(items, ", "), ',')))
  {
    hide ParseScalar, StripAll, Split, Join;
    JoinEnds(items);
    BracketedIsList(Join(items, ", "));
  }

  lemma ItemReadBack(item: string, first: bool)
    requires item != "" && PlainItem(item)
    ensures StripQuotes(Strip(if first then item else " " + item)) == item
  {
    if first {
      assert Strip(item) == item;
    } else {
      StripSpaced(item);
    }
  }

  lemma BracketedIsList(inner: string)
    requires inner != "" && Trimmed(inner, PySpace)
    ensures ParseScalar("[" + inner + "]") == List(StripAll(Split(inner, ',')))
  {
    QuotesAreNoSpaces();
    hide PySpace, Split, StripAll;
    var s := "[" + inner + "]";
    assert s[0] == '[' && s[|s| - 1] == ']' && s[1..|s| - 1] == inner;
    assert Strip(s) == s && Strip(inner) == inner;
  }

  /** Empty brackets, and nothing at all, are the empty list. */
  lemma NothingIsEmptyList()
    ensures ParseScalar("[]") == List([]) && ParseScalar("") == List([])
  {
    QuotesAreNoSpaces();
    var s := "[]";
    assert Strip(s) == s by { hide PySpace; }
    assert s[1..|s| - 1] == "" && Strip("") == "";
  }

  /** Keys begin with a letter; behind it letters, digits, underscores and hyphens may stand. */
  lemma KeyCharacters(c: char, d: char)
    ensures IsKey([c]) <==> 'a' <= c <= 'z' || 'A' <= c <= 'Z'
    ensures IsKey(['k', d]) <==> 'a' <= d <= 'z' || 'A' <= d <= 'Z' || '0' <= d <= '9' || d == '_' || d == '-'
  {
    assert ['k', d][1] == d;
  }
}
