/**
  Escaping text for HTML attributes and for JSON strings: frontend/lib/seo.ts.
 */
module Escaping {
  import opened Options

  /** `s.replace(/c/g, into)` */
  function ReplaceAll(s: string, c: char, into: string): string {
    if s == [] then [] else (if s[0] == c then into else [s[0]]) + ReplaceAll(s[1..], c, into)
  }

  function EscapeHtml(text: string): string {
    var t1 := ReplaceAll(text, '&', "&amp;");
    var t2 := ReplaceAll(t1, '"', "&quot;");
    var t3 := ReplaceAll(t2, '\'', "&#39;");
    var t4 := ReplaceAll(t3, '<', "&lt;");
    ReplaceAll(t4, '>', "&gt;")
  }

  function EscapeJson(text: string): string {
    var t1 := ReplaceAll(text, '\\', "\\\\");
    var t2 := ReplaceAll(t1, '"', "\\\"");
    var t3 := ReplaceAll(t2, '\n', "\\n");
    var t4 := ReplaceAll(t3, '\r', "\\r");
    ReplaceAll(t4, '\t', "\\t")
  }

  // ---- One simultaneous substitution ----

  function Substitute(s: string, image: char -> string): string {
    if s == [] then [] else image(s[0]) + Substitute(s[1..], image)
  }

  function HtmlImage(c: char): string {
    match c
    case '&' => "&amp;"
    case '"' => "&quot;"
    case '\'' => "&#39;"
    case '<' => "&lt;"
    case '>' => "&gt;"
    case _ => [c]
  }

  function JsonImage(c: char): string {
    match c
    case '\\' => "\\\\"
    case '"' => "\\\""
    case '\n' => "\\n"
    case '\r' => "\\r"
    case '\t' => "\\t"
    case _ => [c]
  }

  lemma {:induction false} ReplaceAllConcat(a: string, b: string, c: char, into: string)
    ensures ReplaceAll(a + b, c, into) == ReplaceAll(a, c, into) + ReplaceAll(b, c, into)
  {
    if a == [] {
      assert a + b == b;
    } else {
      assert (a + b)[1..] == a[1..] + b;
      ReplaceAllConcat(a[1..], b, c, into);
    }
  }

  lemma {:induction false} ReplaceWithout(s: string, c: char, into: string)
    requires c !in s
    ensures ReplaceAll(s, c, into) == s
  {
    if s != [] {
      assert s[0] in s;
      ReplaceWithout(s[1..], c, into);
    }
  }

  /** Replacing after a substitution replaces inside every image. */
  lemma {:induction false} ReplaceInImages(s: string, image: char -> string, image': char -> string, c: char, into: string)
    requires forall x :: x in s ==> image'(x) == ReplaceAll(image(x), c, into)
    ensures ReplaceAll(Substitute(s, image), c, into) == Substitute(s, image')
  {
    if s != [] {
      ReplaceAllConcat(image(s[0]), Substitute(s[1..], image), c, into);
      ReplaceInImages(s[1..], image, image', c, into);
    }
  }

  lemma {:induction false} SubstituteNothing(s: string)
    ensures Substitute(s, x => [x]) == s
  {
    if s != [] {
      SubstituteNothing(s[1..]);
    }
  }

  /** One replacement of the chain, when none of the replacements made so far contains its character. */
  lemma ReplaceStep(s: string, image: char -> string, c: char, into: string)
    requires image(c) == [c] && forall x :: x != c ==> c !in image(x)
    ensures ReplaceAll(Substitute(s, image), c, into) == Substitute(s, x => if x == c then into else image(x))
  {
    var image' := x => if x == c then into else image(x);
    forall x | x in s ensures image'(x) == ReplaceAll(image(x), c, into) {
      if x == c {
        assert ReplaceAll([c], c, into) == into + ReplaceAll([], c, into);
      } else {
        ReplaceWithout(image(x), c, into);
      }
    }
    ReplaceInImages(s, image, image', c, into);
  }

  lemma {:induction false} SubstituteSame(s: string, image: char -> string, image': char -> string)
    requires forall x :: image(x) == image'(x)
    ensures Substitute(s, image) == Substitute(s, image')
  {
    if s != [] {
      SubstituteSame(s[1..], image, image');
    }
  }

  /** The first three replacements. */
  lemma EscapeQuotes(s: string)
    ensures ReplaceAll(ReplaceAll(ReplaceAll(s, '&', "&amp;"), '"', "&quot;"), '\'', "&#39;") ==
      Substitute(s, c => if c in "<>" then [c] else HtmlImage(c))
  {
    hide ReplaceAll, Substitute;
    SubstituteNothing(s);
    var f0: char -> string := x => [x];
    var f1 := x => if x == '&' then "&amp;" else f0(x);
    var f2 := x => if x == '"' then "&quot;" else f1(x);
    var f3 := x => if x == '\'' then "&#39;" else f2(x);
    ReplaceStep(s, f0, '&', "&amp;");
    ReplaceStep(s, f1, '"', "&quot;");
    ReplaceStep(s, f2, '\'', "&#39;");
    SubstituteSame(s, f3, c => if c in "<>" then [c] else HtmlImage(c));
  }

  /** Ampersands first makes the chain of five replacements one simultaneous substitution. */
  lemma EscapeHtmlIsSubstitution(s: string)
    ensures EscapeHtml(s) == Substitute(s, HtmlImage)
  {
    hide ReplaceAll, Substitute;
    EscapeQuotes(s);
    var f3 := c => if c in "<>" then [c] else HtmlImage(c);
    var f4 := x => if x == '<' then "&lt;" else f3(x);
    var f5 := x => if x == '>' then "&gt;" else f4(x);
    ReplaceStep(s, f3, '<', "&lt;");
    ReplaceStep(s, f4, '>', "&gt;");
    SubstituteSame(s, f5, HtmlImage);
  }

  /** Backslashes first makes the chain of five replacements one simultaneous substitution. */
  lemma EscapeJsonIsSubstitution(s: string)
    ensures EscapeJson(s) == Substitute(s, JsonImage)
  {
    hide ReplaceAll, Substitute;
    SubstituteNothing(s);
    var f0: char -> string := x => [x];
    var f1 := x => if x == '\\' then "\\\\" else f0(x);
    var f2 := x => if x == '"' then "\\\"" else f1(x);
    var f3 := x => if x == '\n' then "\\n" else f2(x);
    var f4 := x => if x == '\r' then "\\r" else f3(x);
    var f5 := x => if x == '\t' then "\\t" else f4(x);
    ReplaceStep(s, f0, '\\', "\\\\");
    ReplaceStep(s, f1, '"', "\\\"");
    ReplaceStep(s, f2, '\n', "\\n");
    ReplaceStep(s, f3, '\r', "\\r");
    ReplaceStep(s, f4, '\t', "\\t");
    SubstituteSame(s, f5, JsonImage);
  }

  lemma EscapeConcat(a: string, b: string)
    ensures EscapeHtml(a + b) == EscapeHtml(a) + EscapeHtml(b)
    ensures EscapeJson(a + b) == EscapeJson(a) + EscapeJson(b)
  {
    EscapeHtmlIsSubstitution(a);
    EscapeHtmlIsSubstitution(b);
    EscapeHtmlIsSubstitution(a + b);
    EscapeJsonIsSubstitution(a);
    EscapeJsonIsSubstitution(b);
    EscapeJsonIsSubstitution(a + b);
    SubstituteConcat(a, b, HtmlImage);
    SubstituteConcat(a, b, JsonImage);
  }

  lemma {:induction false} SubstituteConcat(a: string, b: string, image: char -> string)
    ensures Substitute(a + b, image) == Substitute(a, image) + Substitute(b, image)
  {
    if a == [] {
      assert a + b == b;
    } else {
      assert (a + b)[1..] == a[1..] + b;
      SubstituteConcat(a[1..], b, image);
    }
  }

  // ---- Reading HTML character references ----

  predicate StartsWith(s: string, p: string) {
    |p| <= |s| && s[..|p|] == p
  }

  /** The character that a reference at the front of s stands for, with the reference's length. */
  function Reference(s: string): (r: Option<(char, nat)>)
    ensures r.Some? ==> 0 < r.value.1 <= |s| && s[..r.value.1] == HtmlImage(r.value.0) && s[0] == '&'
  {
    if StartsWith(s, "&amp;") then Some(('&', 5))
    else if StartsWith(s, "&quot;") then Some(('"', 6))
    else if StartsWith(s, "&#39;") then Some(('\'', 5))
    else if StartsWith(s, "&lt;") then Some(('<', 4))
    else if StartsWith(s, "&gt;") then Some(('>', 4))
    else None
  }

  /** One pass from the left: a reference gives its character, anything else stays. */
  function UnescapeHtml(s: string): string {
    if s == [] then []
    else
      match Reference(s)
      case Some(r) => [r.0] + UnescapeHtml(s[r.1..])
      case None => [s[0]] + UnescapeHtml(s[1..])
  }

  /** No quote or angle bracket, and every ampersand begins one of the five references. */
  predicate HtmlSafe(s: string) {
    forall i :: 0 <= i < |s| ==> SafeAt(s, i)
  }

  predicate SafeAt(s: string, i: nat)
    requires i < |s|
  {
    s[i] !in "\"'<>" && (s[i] == '&' ==> Reference(s[i..]).Some?)
  }

  lemma ReferenceInFront(c: char, rest: string)
    ensures Reference(HtmlImage(c) + rest) == if |HtmlImage(c)| > 1 then Some((c, |HtmlImage(c)|)) else None
  {
    var s := HtmlImage(c) + rest;
    assert s[..|HtmlImage(c)|] == HtmlImage(c);
    assert s[0] == HtmlImage(c)[0];
    if |HtmlImage(c)| > 1 {
      assert s[1] == HtmlImage(c)[1];
    }
  }

  lemma UnescapeInFront(c: char, rest: string)
    ensures UnescapeHtml(HtmlImage(c) + rest) == [c] + UnescapeHtml(rest)
  {
    var s := HtmlImage(c) + rest;
    ReferenceInFront(c, rest);
    assert s[|HtmlImage(c)|..] == rest;
  }

  lemma {:induction false} UnescapeSubstituted(s: string)
    ensures UnescapeHtml(Substitute(s, HtmlImage)) == s
  {
    if s != [] {
      UnescapeInFront(s[0], Substitute(s[1..], HtmlImage));
      UnescapeSubstituted(s[1..]);
    }
  }

  /** Reading the references back gives the original text. */
  lemma HtmlRoundTrip(s: string)
    ensures UnescapeHtml(EscapeHtml(s)) == s
  {
    EscapeHtmlIsSubstitution(s);
    UnescapeSubstituted(s);
  }

  lemma EscapeHtmlInjective(a: string, b: string)
    requires EscapeHtml(a) == EscapeHtml(b)
    ensures a == b
  {
    HtmlRoundTrip(a);
    HtmlRoundTrip(b);
  }

  lemma SafeInImage(c: char, rest: string, i: nat)
    requires i < |HtmlImage(c)|
    ensures SafeAt(HtmlImage(c) + rest, i)
  {
    var s := HtmlImage(c) + rest;
    assert s[i] == HtmlImage(c)[i];
    if i == 0 {
      ReferenceInFront(c, rest);
      assert s[0..] == s;
    }
  }

  lemma SafeAtShift(a: string, b: string, i: nat)
    requires i < |b|
    ensures SafeAt(a + b, |a| + i) <==> SafeAt(b, i)
  {
    assert (a + b)[|a| + i..] == b[i..];
  }

  lemma SafeInFront(c: char, rest: string)
    ensures HtmlSafe(HtmlImage(c) + rest) <==> HtmlSafe(rest)
  {
    hide SafeAt, HtmlImage;
    var e := HtmlImage(c);
    var s := e + rest;
    if HtmlSafe(rest) {
      forall i | 0 <= i < |s| ensures SafeAt(s, i) {
        if i < |e| {
          SafeInImage(c, rest, i);
        } else {
          SafeAtShift(e, rest, i - |e|);
        }
      }
    }
    if HtmlSafe(s) {
      forall i | 0 <= i < |rest| ensures SafeAt(rest, i) {
        SafeAtShift(e, rest, i);
      }
    }
  }

  lemma {:induction false} SubstitutedIsSafe(s: string)
    ensures HtmlSafe(Substitute(s, HtmlImage))
  {
    if s != [] {
      SubstitutedIsSafe(s[1..]);
      SafeInFront(s[0], Substitute(s[1..], HtmlImage));
    }
  }

  lemma {:induction false} SafeIsSubstituted(t: string)
    requires HtmlSafe(t)
    ensures Substitute(UnescapeHtml(t), HtmlImage) == t
  {
    if t != [] {
      assert SafeAt(t, 0) && t[0..] == t;
      var c, n := t[0], 1;
      if Reference(t).Some? {
        c, n := Reference(t).value.0, Reference(t).value.1;
      }
      assert t[0] != '&' || n > 1;
      assert t == HtmlImage(c) + t[n..];
      SafeInFront(c, t[n..]);
      SafeIsSubstituted(t[n..]);
      assert UnescapeHtml(t) == [c] + UnescapeHtml(t[n..]);
    }
  }

  /** The texts `EscapeHtml` produces are exactly the safe ones. */
  lemma SafeIff(t: string)
    ensures HtmlSafe(t) <==> EscapeHtml(UnescapeHtml(t)) == t
    ensures HtmlSafe(EscapeHtml(t))
  {
    EscapeHtmlIsSubstitution(UnescapeHtml(t));
    EscapeHtmlIsSubstitution(t);
    SubstitutedIsSafe(t);
    SubstitutedIsSafe(UnescapeHtml(t));
    if HtmlSafe(t) {
      SafeIsSubstituted(t);
    }
  }

  // ---- Reading JSON strings: section 7 of RFC 8259 ----

  predicate HexDigit(c: char) {
    '0' <= c <= '9' || 'a' <= c <= 'f' || 'A' <= c <= 'F'
  }

  function HexValue(c: char): (v: int)
    requires HexDigit(c)
    ensures 0 <= v < 16
  {
    if c <= '9' then c as int - '0' as int
    else if c <= 'F' then c as int - 'A' as int + 10
    else c as int - 'a' as int + 10
  }

  /** A two-character escape, by the character after the backslash. */
  function ShortEscape(c: char): Option<char> {
    match c
    case '"' => Some('"')
    case '\\' => Some('\\')
    case '/' => Some('/')
    case 'b' => Some('\U{08}')
    case 'f' => Some('\U{0C}')
    case 'n' => Some('\n')
    case 'r' => Some('\r')
    case 't' => Some('\t')
    case _ => None
  }

  /** Four hexadecimal digits naming a character outside the surrogate range. */
  function LongEscape(digits: string): Option<char>
    requires |digits| == 4
  {
    if forall i :: 0 <= i < 4 ==> HexDigit(digits[i]) then
      var code := ((HexValue(digits[0]) * 16 + HexValue(digits[1])) * 16 + HexValue(digits[2])) * 16 + HexValue(digits[3]);
      if code < 0xD800 || 0xE000 <= code then Some(code as char) else None
    else None
  }

  predicate Control(c: char) {
    c < ' '
  }

  datatype Read = Read(text: string, rest: string)

  function Prepend(c: char, r: Option<Read>): Option<Read> {
    match r
    case Some(Read(text, rest)) => Some(Read([c] + text, rest))
    case None => None
  }

  /**
    What stands after the opening quotation mark: the string up to the closing one, and the text
    behind it. A strict reader refuses control characters, as the RFC does.
   */
  function ReadJson(s: string, strict: bool): Option<Read> {
    if s == [] then None
    else if s[0] == '"' then Some(Read([], s[1..]))
    else if strict && Control(s[0]) then None
    else if s[0] != '\\' then Prepend(s[0], ReadJson(s[1..], strict))
    else if |s| == 1 then None
    else if ShortEscape(s[1]).Some? then Prepend(ShortEscape(s[1]).value, ReadJson(s[2..], strict))
    else if s[1] == 'u' && |s| >= 6 && LongEscape(s[2..6]).Some? then Prepend(LongEscape(s[2..6]).value, ReadJson(s[6..], strict))
    else None
  }

  /** Newline, return and tab are the only control characters. */
  predicate JsonClean(s: string) {
    forall c :: c in s && Control(c) ==> c in "\n\r\t"
  }

  lemma ReadImage(c: char, rest: string, strict: bool)
    ensures ReadJson(JsonImage(c) + rest, strict) ==
      if strict && Control(c) && c !in "\n\r\t" then None else Prepend(c, ReadJson(rest, strict))
  {
    var s := JsonImage(c) + rest;
    assert s[|JsonImage(c)|..] == rest;
    assert s[0] == JsonImage(c)[0];
    if |JsonImage(c)| > 1 {
      assert s[1] == JsonImage(c)[1];
    }
  }

  lemma {:induction false} ReadSubstituted(s: string, rest: string, strict: bool)
    ensures ReadJson(Substitute(s, JsonImage) + ['"'] + rest, strict) ==
      if !strict || JsonClean(s) then Some(Read(s, rest)) else None
  {
    var tail := ['"'] + rest;
    if s == [] {
      assert Substitute(s, JsonImage) + ['"'] + rest == tail;
    } else {
      var first, others := JsonImage(s[0]), Substitute(s[1..], JsonImage);
      assert Substitute(s, JsonImage) + ['"'] + rest == first + (others + ['"'] + rest);
      ReadImage(s[0], others + ['"'] + rest, strict);
      ReadSubstituted(s[1..], rest, strict);
      assert s == [s[0]] + s[1..];
      assert JsonClean(s) <==> (Control(s[0]) ==> s[0] in "\n\r\t") && JsonClean(s[1..]);
    }
  }

  /**
    A JSON reader gets the original string and stops exactly at the closing quotation mark if newline,
    return and tab are the only control characters in it; otherwise it refuses the string.
   */
  lemma JsonRoundTrip(s: string, rest: string)
    ensures ReadJson(EscapeJson(s) + ['"'] + rest, true) == if JsonClean(s) then Some(Read(s, rest)) else None
    ensures ReadJson(EscapeJson(s) + ['"'] + rest, false) == Some(Read(s, rest))
  {
    EscapeJsonIsSubstitution(s);
    ReadSubstituted(s, rest, true);
    ReadSubstituted(s, rest, false);
  }

  lemma EscapeJsonInjective(a: string, b: string)
    requires EscapeJson(a) == EscapeJson(b)
    ensures a == b
  {
    JsonRoundTrip(a, []);
    JsonRoundTrip(b, []);
  }
}
