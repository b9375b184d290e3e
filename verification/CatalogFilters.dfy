/**
  The catalog page keeps its filters in the URL: `pushParams` writes them, every render reads them
  back. On a genre or tag page a preset is left out when writing and put back when reading.

  Query encoding is a faithful map from parameter names to texts. Numbers are whole numbers or NaN.
 */
module CatalogFilters {
  import opened Options
  import opened Text
  import opened CsvSets
  import Decimal

  /** The parameter names; `OtherKey` stands for any name the filters do not use. */
  datatype Key =
    | Q | SearchSynopsis | PublicationStatus | SortBy | Order | MinChapters | MaxChapters | GenreInclude | GenreExclude
    | GenreOp | TagInclude | TagExclude | TagOp | Page | OtherKey(name: string)

  type Url = map<Key, string>

  datatype Number = NaN | Whole(value: int)

  datatype Params = Params(
    q: Option<string>, searchSynopsis: Option<bool>, publicationStatus: Option<string>, sourceKey: Option<string>,
    sortBy: Option<string>, order: Option<string>, minChapters: Option<Number>, maxChapters: Option<Number>,
    genreInclude: Option<string>, genreExclude: Option<string>, genreOp: Option<string>, tagInclude: Option<string>,
    tagExclude: Option<string>, tagOp: Option<string>, page: Option<int>, pageSize: Option<int>)

  datatype Preset = Preset(genreInclude: Option<string>, tagInclude: Option<string>, sourceKey: Option<string>)

  const NO_PRESET := Preset(None, None, None)
  const PAGE_SIZE := 20
  const TRUE_TEXT := "true"

  // ---- Reading ----

  function Get(url: Url, key: Key): Option<string> {
    if key in url then Some(url[key]) else None
  }

  function NumberText(n: Number): (text: string)
    ensures text != ""
  {
    match n
    case NaN => "NaN"
    case Whole(k) => Decimal.OfInt(k)
  }

  /** The value of a digit in the given radix; hexadecimal digits may be letters of either case. */
  function RadixDigit(c: char, radix: nat): Option<nat> {
    var value :=
      if '0' <= c <= '9' then c as nat - '0' as nat
      else if 'a' <= c <= 'f' then c as nat - 'a' as nat + 10
      else if 'A' <= c <= 'F' then c as nat - 'A' as nat + 10
      else 16;
    if value < radix then Some(value) else None
  }

  function ReadRadix(digits: string, radix: nat): Option<nat> {
    if digits == [] then Some(0)
    else
      var last := |digits| - 1;
      match (ReadRadix(digits[..last], radix), RadixDigit(digits[last], radix)) {
        case (Some(n), Some(d)) => Some(n * radix + d)
        case _ => None
      }
  }

  function Radix(c: char): Option<nat> {
    match c
    case 'x' => Some(16)
    case 'X' => Some(16)
    case 'o' => Some(8)
    case 'O' => Some(8)
    case 'b' => Some(2)
    case 'B' => Some(2)
    case _ => None
  }

  /** `Number(text)`: the empty text is zero; a decimal integer may have a sign, one with the prefix of
      another radix may not; anything else is NaN. */
  function ReadNumber(text: string): Number {
    var trimmed := Trim(text, JsSpace);
    if trimmed == "" then Whole(0)
    else if |trimmed| > 2 && trimmed[0] == '0' && Radix(trimmed[1]).Some? then
      match ReadRadix(trimmed[2..], Radix(trimmed[1]).value) case Some(k) => Whole(k) case None => NaN
    else if trimmed[0] == '+' then
      if |trimmed| > 1 && Decimal.AllDigits(trimmed[1..]) then Whole(Decimal.ToNat(trimmed[1..])) else NaN
    else match Decimal.ToInt(trimmed) case Some(k) => Whole(k) case None => NaN
  }

  lemma IntTextIsPlain(text: string)
    requires Decimal.IsInt(text)
    ensures Trimmed(text, JsSpace) && text[0] != '+' && (|text| > 1 ==> Radix(text[1]).None?)
  {
    if |text| > 1 {
      var digits := if text[0] == '-' then text[1..] else text;
      assert Decimal.IsDigit(digits[|digits| - 1]) && digits[|digits| - 1] == text[|text| - 1];
      assert text[0] == '-' ==> digits[0] == text[1];
    }
  }

  lemma IntRoundTrip(k: int)
    ensures ReadNumber(Decimal.OfInt(k)) == Whole(k)
  {
    var text := Decimal.OfInt(k);
    Decimal.ToIntOfInt(k);
    assert Decimal.IsInt(text);
    IntTextIsPlain(text);
    hide JsSpace, Radix, ReadRadix, Decimal.IsInt, Decimal.OfInt;
    assert Trim(text, JsSpace) == text;
  }

  lemma NumberRoundTrip(n: Number)
    ensures ReadNumber(NumberText(n)) == n
  {
    match n
    case NaN =>
      assert Trimmed("NaN", JsSpace);
      assert !Decimal.IsInt("NaN") by { assert "NaN"[0] == 'N'; }
    case Whole(k) => IntRoundTrip(k);
  }

  predicate IsStatusValue(t: string) {
    t == "completed" || t == "ongoing" || t == "hiatus" || t == "cancelled" || t == "unknown"
  }

  function ToStatus(text: Option<string>): (status: Option<string>)
    ensures status.Some? ==> IsStatusValue(status.value)
  {
    if text.None? || text.value == "" then None
    else
      var normalized := Lower(Trim(text.value, JsSpace));
      if IsStatusValue(normalized) then Some(normalized)
      else if normalized == "dropped" then Some("unknown")
      else None
  }

  lemma StatusRoundTrip(status: Option<string>)
    ensures ToStatus(status) == status <==> status.None? || IsStatusValue(status.value)
  {
    if status.Some? && IsStatusValue(status.value) {
      var v := status.value;
      assert v != "" && Trimmed(v, JsSpace);
      assert forall i :: 0 <= i < |v| ==> 'a' <= v[i] <= 'z';
      assert Lower(v) == v;
    }
  }

  function ReadPage(text: Option<string>): int {
    match ReadNumber(text.GetOr("1"))
    case NaN => 1
    case Whole(k) => if k == 0 then 1 else k
  }

  function ReadBound(text: Option<string>): Option<Number> {
    if text.None? || text.value == "" then None else Some(ReadNumber(text.value))
  }

  function ReadOp(text: Option<string>): Option<string> {
    if text.None? || text.value == "and" then None else text
  }

  /** The four sets on display: genres and tags, included and excluded. */
  datatype Sets = Sets(genreInclude: set<string>, genreExclude: set<string>, tagInclude: set<string>, tagExclude: set<string>)

  function ReadSets(url: Url, preset: Preset): Sets {
    Sets(
      ParseCsv(Get(url, GenreInclude)) + ParseCsv(preset.genreInclude),
      ParseCsv(Get(url, GenreExclude)),
      ParseCsv(Get(url, TagInclude)) + ParseCsv(preset.tagInclude),
      ParseCsv(Get(url, TagExclude)))
  }

  function ReadParams(url: Url, preset: Preset): Params {
    var sets := ReadSets(url, preset);
    Params(
      Get(url, Q),
      if Get(url, SearchSynopsis) == Some(TRUE_TEXT) then Some(true) else None,
      ToStatus(Get(url, PublicationStatus)),
      preset.sourceKey,
      Some(Get(url, SortBy).GetOr("added_at")),
      Some(Get(url, Order).GetOr("desc")),
      ReadBound(Get(url, MinChapters)),
      ReadBound(Get(url, MaxChapters)),
      SerializeSet(sets.genreInclude),
      SerializeSet(sets.genreExclude),
      ReadOp(Get(url, GenreOp)),
      SerializeSet(sets.tagInclude),
      SerializeSet(sets.tagExclude),
      ReadOp(Get(url, TagOp)),
      Some(ReadPage(Get(url, Page))),
      Some(PAGE_SIZE))
  }

  // ---- Writing ----

  predicate Truthy(text: Option<string>) {
    text.Some? && text.value != ""
  }

  /** The text of an include parameter: its names without those of the preset. */
  function WithoutPreset(list: Option<string>, preset: Option<string>): Option<string> {
    if !Truthy(list) then None else SerializeSet(ParseCsv(list) - ParseCsv(preset))
  }

  function Unless(text: Option<string>, default: string): Option<string> {
    if Truthy(text) && text.value != default then text else None
  }

  /** What `pushParams` writes for each parameter; None leaves it out. */
  function Entry(next: Params, preset: Preset, key: Key): Option<string> {
    match key
    case Q => Unless(next.q, "")
    case SearchSynopsis => if next.searchSynopsis == Some(true) then Some(TRUE_TEXT) else None
    case PublicationStatus => Unless(next.publicationStatus, "")
    case SortBy => Unless(next.sortBy, "added_at")
    case Order => Unless(next.order, "desc")
    case MinChapters => if next.minChapters.Some? then Some(NumberText(next.minChapters.value)) else None
    case MaxChapters => if next.maxChapters.Some? then Some(NumberText(next.maxChapters.value)) else None
    case GenreInclude => WithoutPreset(next.genreInclude, preset.genreInclude)
    case GenreExclude => Unless(next.genreExclude, "")
    case GenreOp => Unless(next.genreOp, "and")
    case TagInclude => WithoutPreset(next.tagInclude, preset.tagInclude)
    case TagExclude => Unless(next.tagExclude, "")
    case TagOp => Unless(next.tagOp, "and")
    case Page => if next.page.Some? && next.page.value > 1 then Some(NumberText(Whole(next.page.value))) else None
    case OtherKey(_) => None
  }

  ghost predicate IsPushed(url: Url, next: Params, preset: Preset) {
    forall key :: Get(url, key) == Entry(next, preset, key)
  }

  // ---- The round trip ----

  predicate CanonicalList(list: Option<string>, preset: Option<string>) {
    (list.None? || IsSortedCsv(list.value)) && ParseCsv(preset) <= ParseCsv(list)
  }

  /** Parameters with one spelling: nothing is given as an empty text or as its own default where the
      default is spelled by absence, lists are sorted lists of clean names that contain the preset, and
      pages count from one. */
  predicate Canonical(p: Params, preset: Preset) {
    && p.q != Some("") && p.searchSynopsis != Some(false)
    && (p.publicationStatus.None? || IsStatusValue(p.publicationStatus.value))
    && p.sourceKey == preset.sourceKey
    && Truthy(p.sortBy) && Truthy(p.order)
    && CanonicalList(p.genreInclude, preset.genreInclude) && CanonicalList(p.genreExclude, None)
    && CanonicalList(p.tagInclude, preset.tagInclude) && CanonicalList(p.tagExclude, None)
    && p.genreOp !in {Some(""), Some("and")} && p.tagOp !in {Some(""), Some("and")}
    && p.page.Some? && p.page.value >= 1 && p.pageSize == Some(PAGE_SIZE)
  }

  /** Reading back a list that was written without the preset gives all its clean pieces and the preset. */
  lemma ListReadBack(list: Option<string>, preset: Option<string>)
    ensures ParseCsv(WithoutPreset(list, preset)) + ParseCsv(preset) == ParseCsv(list) + ParseCsv(preset)
  {
    if Truthy(list) {
      ParsedAreClean(list);
      SetRoundTrip(ParseCsv(list) - ParseCsv(preset));
    }
  }

  lemma ListRoundTrip(list: Option<string>, preset: Option<string>)
    ensures SerializeSet(ParseCsv(WithoutPreset(list, preset)) + ParseCsv(preset)) == list <==> CanonicalList(list, preset)
  {
    hide ParseCsv, SerializeSet, WithoutPreset, IsSortedCsv, Clean;
    ListReadBack(list, preset);
    TextRoundTrip(list);
    var all := ParseCsv(list) + ParseCsv(preset);
    if ParseCsv(preset) <= ParseCsv(list) {
      assert all == ParseCsv(list);
    }
    if SerializeSet(all) == list {
      ParsedAreClean(list);
      ParsedAreClean(preset);
      SetRoundTrip(all);
    }
  }

  /** Without a preset the text is written as it is. */
  lemma ExcludeRoundTrip(list: Option<string>)
    ensures SerializeSet(ParseCsv(Unless(list, ""))) == list <==> CanonicalList(list, None)
  {
    TextRoundTrip(list);
    assert ParseCsv(Unless(list, "")) == ParseCsv(list);
  }

  lemma DefaultRoundTrip(text: Option<string>, default: string)
    requires default != ""
    ensures Some(Unless(text, default).GetOr(default)) == text <==> Truthy(text)
  {
  }

  lemma OpRoundTrip(op: Option<string>)
    ensures ReadOp(Unless(op, "and")) == op <==> op !in {Some(""), Some("and")}
  {
    assert "and" != "";
  }

  lemma BoundRoundTrip(bound: Option<Number>)
    ensures ReadBound(if bound.Some? then Some(NumberText(bound.value)) else None) == bound
  {
    if bound.Some? {
      NumberRoundTrip(bound.value);
    }
  }

  lemma PageRoundTrip(page: Option<int>)
    ensures Some(ReadPage(if page.Some? && page.value > 1 then Some(NumberText(Whole(page.value))) else None)) == page <==>
            page.Some? && page.value >= 1
  {
    NumberRoundTrip(Whole(1));
    assert NumberText(Whole(1)) == "1";
    if page.Some? {
      NumberRoundTrip(Whole(page.value));
    }
  }

  lemma StatusReadBack(status: Option<string>)
    ensures ToStatus(Unless(status, "")) == status <==> status.None? || IsStatusValue(status.value)
  {
    StatusRoundTrip(status);
    assert ToStatus(Unless(status, "")) == ToStatus(status);
  }

  lemma PushedTexts(url: Url, p: Params, preset: Preset)
    requires IsPushed(url, p, preset)
    ensures Get(url, Q) == Unless(p.q, "")
    ensures Get(url, SearchSynopsis) == if p.searchSynopsis == Some(true) then Some(TRUE_TEXT) else None
    ensures Get(url, PublicationStatus) == Unless(p.publicationStatus, "")
    ensures Get(url, SortBy) == Unless(p.sortBy, "added_at") && Get(url, Order) == Unless(p.order, "desc")
    ensures Get(url, GenreOp) == Unless(p.genreOp, "and") && Get(url, TagOp) == Unless(p.tagOp, "and")
  {
    hide Get;
    assert Get(url, Q) == Entry(p, preset, Q);
    assert Get(url, SearchSynopsis) == Entry(p, preset, SearchSynopsis);
    assert Get(url, PublicationStatus) == Entry(p, preset, PublicationStatus);
    assert Get(url, SortBy) == Entry(p, preset, SortBy);
    assert Get(url, Order) == Entry(p, preset, Order);
    assert Get(url, GenreOp) == Entry(p, preset, GenreOp);
    assert Get(url, TagOp) == Entry(p, preset, TagOp);
  }

  lemma PushedNumbers(url: Url, p: Params, preset: Preset)
    requires IsPushed(url, p, preset)
    ensures Get(url, MinChapters) == if p.minChapters.Some? then Some(NumberText(p.minChapters.value)) else None
    ensures Get(url, MaxChapters) == if p.maxChapters.Some? then Some(NumberText(p.maxChapters.value)) else None
    ensures Get(url, Page) == if p.page.Some? && p.page.value > 1 then Some(NumberText(Whole(p.page.value))) else None
  {
    hide Get;
    assert Get(url, MinChapters) == Entry(p, preset, MinChapters);
    assert Get(url, MaxChapters) == Entry(p, preset, MaxChapters);
    assert Get(url, Page) == Entry(p, preset, Page);
  }

  lemma PushedLists(url: Url, p: Params, preset: Preset)
    requires IsPushed(url, p, preset)
    ensures Get(url, GenreInclude) == WithoutPreset(p.genreInclude, preset.genreInclude)
    ensures Get(url, GenreExclude) == Unless(p.genreExclude, "")
    ensures Get(url, TagInclude) == WithoutPreset(p.tagInclude, preset.tagInclude)
    ensures Get(url, TagExclude) == Unless(p.tagExclude, "")
  {
    hide Get, WithoutPreset, Unless;
    assert Get(url, GenreInclude) == Entry(p, preset, GenreInclude);
    assert Get(url, GenreExclude) == Entry(p, preset, GenreExclude);
    assert Get(url, TagInclude) == Entry(p, preset, TagInclude);
    assert Get(url, TagExclude) == Entry(p, preset, TagExclude);
  }

  lemma ListsReadBack(url: Url, p: Params, preset: Preset)
    requires IsPushed(url, p, preset)
    ensures var r := ReadParams(url, preset);
      && (r.genreInclude == p.genreInclude <==> CanonicalList(p.genreInclude, preset.genreInclude))
      && (r.genreExclude == p.genreExclude <==> CanonicalList(p.genreExclude, None))
      && (r.tagInclude == p.tagInclude <==> CanonicalList(p.tagInclude, preset.tagInclude))
      && (r.tagExclude == p.tagExclude <==> CanonicalList(p.tagExclude, None))
  {
    PushedLists(url, p, preset);
    hide IsPushed, Get;
    ListRoundTrip(p.genreInclude, preset.genreInclude);
    ListRoundTrip(p.tagInclude, preset.tagInclude);
    ExcludeRoundTrip(p.genreExclude);
    ExcludeRoundTrip(p.tagExclude);
    hide ParseCsv, SerializeSet, WithoutPreset, CanonicalList, Unless;
  }

  lemma NumbersReadBack(url: Url, p: Params, preset: Preset)
    requires IsPushed(url, p, preset)
    ensures var r := ReadParams(url, preset);
      && r.minChapters == p.minChapters && r.maxChapters == p.maxChapters
      && (r.page == p.page <==> p.page.Some? && p.page.value >= 1)
  {
    PushedNumbers(url, p, preset);
    hide IsPushed, Get;
    BoundRoundTrip(p.minChapters);
    BoundRoundTrip(p.maxChapters);
    PageRoundTrip(p.page);
    hide ReadPage, ReadBound, NumberText;
  }

  lemma FlagCases(flag: Option<bool>)
    ensures flag in {None, Some(true), Some(false)}
  {
    if flag.Some? {
      var b := flag.value;
      if b { assert flag == Some(true); } else { assert flag == Some(false); }
    }
  }

  lemma TextsReadBack(url: Url, p: Params, preset: Preset)
    requires IsPushed(url, p, preset)
    ensures var r := ReadParams(url, preset);
      && (r.q == p.q <==> p.q != Some(""))
      && (r.searchSynopsis == p.searchSynopsis <==> p.searchSynopsis != Some(false))
      && (r.publicationStatus == p.publicationStatus <==> p.publicationStatus.None? || IsStatusValue(p.publicationStatus.value))
      && (r.sortBy == p.sortBy <==> Truthy(p.sortBy)) && (r.order == p.order <==> Truthy(p.order))
      && (r.genreOp == p.genreOp <==> p.genreOp !in {Some(""), Some("and")})
      && (r.tagOp == p.tagOp <==> p.tagOp !in {Some(""), Some("and")})
      && r.sourceKey == preset.sourceKey && r.pageSize == Some(PAGE_SIZE)
  {
    PushedTexts(url, p, preset);
    hide IsPushed, Get;
    StatusReadBack(p.publicationStatus);
    DefaultRoundTrip(p.sortBy, "added_at");
    DefaultRoundTrip(p.order, "desc");
    OpRoundTrip(p.genreOp);
    OpRoundTrip(p.tagOp);
    assert Unless(p.q, "") == p.q <==> p.q != Some("");
    FlagCases(p.searchSynopsis);
    hide ToStatus, ReadOp, Unless, Truthy;
  }

  /** Writing parameters and reading them back gives the same parameters exactly when they are
      canonical. */
  lemma PushRoundTrip(url: Url, p: Params, preset: Preset)
    requires IsPushed(url, p, preset)
    ensures ReadParams(url, preset) == p <==> Canonical(p, preset)
  {
    ListsReadBack(url, p, preset);
    NumbersReadBack(url, p, preset);
    TextsReadBack(url, p, preset);
    hide IsPushed, ReadParams, CanonicalList, Truthy;
  }

  lemma SerializedIsCanonical(s: set<string>, preset: Option<string>)
    requires (forall name :: name in s ==> Clean(name)) && ParseCsv(preset) <= s
    ensures CanonicalList(SerializeSet(s), preset)
  {
    SetRoundTrip(s);
    TextRoundTrip(SerializeSet(s));
  }

  /** The URL gives no filter as an empty text and no page before the first. */
  predicate NoStrayTexts(url: Url) {
    && Get(url, Q) != Some("") && Get(url, SortBy) != Some("") && Get(url, Order) != Some("")
    && Get(url, GenreOp) != Some("") && Get(url, TagOp) != Some("") && ReadPage(Get(url, Page)) >= 1
  }

  /** Whatever the URL says, what is read from it is canonical up to a few stray texts. */
  lemma ReadIsCanonical(url: Url, preset: Preset)
    ensures Canonical(ReadParams(url, preset), preset) <==> NoStrayTexts(url)
  {
    ReadListsCanonical(url, preset);
    ReadTextsCanonical(url, preset);
    hide CanonicalList, ReadPage, ReadParams, Get, Truthy;
  }

  lemma ReadListsCanonical(url: Url, preset: Preset)
    ensures var p := ReadParams(url, preset);
      && CanonicalList(p.genreInclude, preset.genreInclude) && CanonicalList(p.genreExclude, None)
      && CanonicalList(p.tagInclude, preset.tagInclude) && CanonicalList(p.tagExclude, None)
  {
    var sets := ReadSets(url, preset);
    ReadSetsAreClean(url, preset);
    hide ReadSets, Clean;
    assert ParseCsv(None) == {};
    SerializedIsCanonical(sets.genreInclude, preset.genreInclude);
    SerializedIsCanonical(sets.genreExclude, None);
    SerializedIsCanonical(sets.tagInclude, preset.tagInclude);
    SerializedIsCanonical(sets.tagExclude, None);
    hide ParseCsv, SerializeSet, CanonicalList;
  }

  lemma ReadTextsCanonical(url: Url, preset: Preset)
    ensures var p := ReadParams(url, preset);
      && (p.q != Some("") <==> Get(url, Q) != Some("")) && p.searchSynopsis != Some(false)
      && (p.publicationStatus.None? || IsStatusValue(p.publicationStatus.value))
      && p.sourceKey == preset.sourceKey && p.pageSize == Some(PAGE_SIZE)
      && (Truthy(p.sortBy) <==> Get(url, SortBy) != Some("")) && (Truthy(p.order) <==> Get(url, Order) != Some(""))
      && (p.genreOp !in {Some(""), Some("and")} <==> Get(url, GenreOp) != Some(""))
      && (p.tagOp !in {Some(""), Some("and")} <==> Get(url, TagOp) != Some(""))
      && p.page == Some(ReadPage(Get(url, Page)))
  {
    hide ReadSets, SerializeSet, ReadPage, ReadBound, Get;
  }

  lemma ReadSetsAreClean(url: Url, preset: Preset)
    ensures var sets := ReadSets(url, preset);
      && (forall name :: name in sets.genreInclude + sets.genreExclude + sets.tagInclude + sets.tagExclude ==> Clean(name))
      && ParseCsv(preset.genreInclude) <= sets.genreInclude && ParseCsv(preset.tagInclude) <= sets.tagInclude
  {
    ParsedAreClean(Get(url, GenreInclude));
    ParsedAreClean(Get(url, GenreExclude));
    ParsedAreClean(Get(url, TagInclude));
    ParsedAreClean(Get(url, TagExclude));
    ParsedAreClean(preset.genreInclude);
    ParsedAreClean(preset.tagInclude);
    hide ParseCsv, Clean;
  }

  // ---- The handlers ----

  predicate IsPlainKey(key: Key) {
    key.Q? || key.SearchSynopsis? || key.PublicationStatus? || key.SortBy? || key.Order? || key.MinChapters? || key.MaxChapters?
  }

  predicate IsListKey(key: Key) {
    key.GenreInclude? || key.GenreExclude? || key.GenreOp? || key.TagInclude? || key.TagExclude? || key.TagOp? || key.Page?
  }

  const KEYS: set<Key> := {
    Q, SearchSynopsis, PublicationStatus, SortBy, Order, MinChapters, MaxChapters, GenreInclude, GenreExclude, GenreOp,
    TagInclude, TagExclude, TagOp, Page}

  function Pushed(next: Params, preset: Preset): Url {
    map key | key in KEYS && Entry(next, preset, key).Some? :: Entry(next, preset, key).value
  }

  lemma PushedIsPushed(next: Params, preset: Preset)
    ensures IsPushed(Pushed(next, preset), next, preset)
  {
    hide Unless, WithoutPreset, NumberText;
    forall key ensures Get(Pushed(next, preset), key) == Entry(next, preset, key) {
      match key
      case OtherKey(_) =>
      case _ => assert key in KEYS;
    }
  }

  /** The address shown, and the preset of the page it belongs to. */
  datatype Location = Location(url: Url, preset: Preset)

  function Shown(at: Location): Sets {
    ReadSets(at.url, at.preset)
  }

  datatype Event =
    | GenreClick(slug: string)
    | TagIncludeAdd(tag: string)
    | TagIncludeRemove(tag: string)
    | TagExcludeAdd(tag: string)
    | TagExcludeRemove(tag: string)
    | ClearFilters
    | RemoveChip(key: Key, value: string)
    | RemoveParams(keys: set<Key>)
    | StripFocus
    | ChangeOther(next: Params)

  /** The tag boxes offer only tags that are in neither set; a chip is shown for a member of a list; the
      remaining handlers push the parameters on display with other lists left alone. */
  predicate Enabled(at: Location, e: Event) {
    match e
    case TagIncludeAdd(tag) => tag !in Shown(at).tagInclude + Shown(at).tagExclude
    case TagExcludeAdd(tag) => tag !in Shown(at).tagInclude + Shown(at).tagExclude
    case RemoveChip(key, value) => key in {GenreInclude, GenreExclude, TagInclude, TagExclude} && value != ""
    case ChangeOther(next) =>
      var p := ReadParams(at.url, at.preset);
      next.genreInclude == p.genreInclude && next.genreExclude == p.genreExclude &&
      next.tagInclude == p.tagInclude && next.tagExclude == p.tagExclude
    case _ => true
  }

  function PresetFor(preset: Preset, key: Key): Option<string> {
    match key
    case GenreInclude => preset.genreInclude
    case TagInclude => preset.tagInclude
    case _ => None
  }

  function PushGenres(at: Location, wanted: set<string>, unwanted: set<string>): Location {
    at.(url := Pushed(ReadParams(at.url, at.preset).(
      genreInclude := SerializeSet(wanted), genreExclude := SerializeSet(unwanted), page := Some(1)), at.preset))
  }

  function PushTags(at: Location, wanted: set<string>, unwanted: set<string>): Location {
    at.(url := Pushed(ReadParams(at.url, at.preset).(
      tagInclude := SerializeSet(wanted), tagExclude := SerializeSet(unwanted), page := Some(1)), at.preset))
  }

  function ClickGenre(at: Location, slug: string): Location {
    var s := Shown(at);
    if slug in s.genreInclude then PushGenres(at, s.genreInclude - {slug}, s.genreExclude - {slug})
    else if slug in s.genreExclude then PushGenres(at, s.genreInclude - {slug}, s.genreExclude - {slug})
    else PushGenres(at, s.genreInclude + {slug}, s.genreExclude - {slug})
  }

  /** Taking a preset name off leaves for the general catalog page, which has no preset. */
  function DropChip(at: Location, key: Key, value: string): Location {
    var preset := ParseCsv(PresetFor(at.preset, key));
    var values := ParseCsv(Get(at.url, key)) + preset - {value};
    Location(
      (if values == {} then at.url - {key} else at.url[key := SerializeSet(values).value]) - {Page},
      if value in preset then NO_PRESET else at.preset)
  }

  const NOTHING := Params(None, None, None, None, None, None, None, None, None, None, None, None, None, None, None, None)

  function Next(at: Location, e: Event): Location {
    var p := ReadParams(at.url, at.preset);
    var s := Shown(at);
    match e
    case GenreClick(slug) => ClickGenre(at, slug)
    case TagIncludeAdd(tag) => PushTags(at, s.tagInclude + {tag}, s.tagExclude - {tag})
    case TagIncludeRemove(tag) => PushTags(at, s.tagInclude - {tag}, s.tagExclude)
    case TagExcludeAdd(tag) => PushTags(at, s.tagInclude - {tag}, s.tagExclude + {tag})
    case TagExcludeRemove(tag) => PushTags(at, s.tagInclude, s.tagExclude - {tag})
    case ClearFilters => at.(url := Pushed(NOTHING.(sortBy := p.sortBy, order := p.order, page := Some(1)), at.preset))
    case RemoveChip(key, value) => DropChip(at, key, value)
    case RemoveParams(keys) => at.(url := at.url - keys - {Page})
    case StripFocus => at.(url := at.url - {OtherKey("focus")})
    case ChangeOther(next) => at.(url := Pushed(next, at.preset))
  }

  predicate Disjoint(s: Sets) {
    s.genreInclude !! s.genreExclude && s.tagInclude !! s.tagExclude
  }

  /** The sets read back after a push. */
  lemma PushedSets(next: Params, preset: Preset)
    ensures ReadSets(Pushed(next, preset), preset) == Sets(
      ParseCsv(next.genreInclude) + ParseCsv(preset.genreInclude), ParseCsv(next.genreExclude),
      ParseCsv(next.tagInclude) + ParseCsv(preset.tagInclude), ParseCsv(next.tagExclude))
  {
    hide ParseCsv, Pushed, IsPushed, Get, Unless, WithoutPreset;
    PushedIsPushed(next, preset);
    PushedLists(Pushed(next, preset), next, preset);
    ListReadBack(next.genreInclude, preset.genreInclude);
    ListReadBack(next.tagInclude, preset.tagInclude);
    EmptyTextParsed(next.genreExclude);
    EmptyTextParsed(next.tagExclude);
  }

  lemma EmptyTextParsed(text: Option<string>)
    ensures ParseCsv(Unless(text, "")) == ParseCsv(text)
  {
  }

  /** What a set becomes by being written and read: its members' pieces. */
  function ReadBack(s: set<string>): set<string> {
    set name, piece | name in s && piece in Pieces(name) :: piece
  }

  lemma ReadBackOfClean(s: set<string>)
    requires forall x :: x in s ==> Clean(x)
    ensures ReadBack(s) == s
  {
    forall x | x in s ensures Pieces(x) == {x} {
      CleanIsOnePiece(x);
    }
    hide Pieces, Clean;
  }

  lemma ReadBackWith(s: set<string>, name: string)
    ensures ReadBack(s + {name}) == ReadBack(s) + Pieces(name)
  {
    hide Pieces;
  }

  lemma ReadBackClean(s: set<string>, name: string)
    requires forall x :: x in s ==> Clean(x)
    ensures ReadBack(s) == s && ReadBack(s + {name}) == s + Pieces(name) && ReadBack(s - {name}) == s - {name}
  {
    ReadBackOfClean(s);
    ReadBackOfClean(s - {name});
    ReadBackWith(s, name);
  }

  /** The added name is not made of pieces that stand on the other side. */
  predicate NoPieceOpposite(s: Sets, e: Event) {
    match e
    case GenreClick(slug) => slug in s.genreInclude + s.genreExclude || Pieces(slug) !! s.genreExclude
    case TagIncludeAdd(tag) => Pieces(tag) !! s.tagExclude
    case TagExcludeAdd(tag) => Pieces(tag) !! s.tagInclude
    case _ => true
  }

  lemma PushTagsShown(at: Location, wanted: set<string>, unwanted: set<string>)
    ensures Shown(PushTags(at, wanted, unwanted)) ==
      Shown(at).(tagInclude := ReadBack(wanted) + ParseCsv(at.preset.tagInclude), tagExclude := ReadBack(unwanted))
  {
    hide ParseCsv, SerializeSet, Pieces, Clean, Pushed, ReadSets;
    var s := Shown(at);
    var next := ReadParams(at.url, at.preset).(tagInclude := SerializeSet(wanted), tagExclude := SerializeSet(unwanted), page := Some(1));
    PushedSets(next, at.preset);
    ReadSetsAreClean(at.url, at.preset);
    ParseSerialized(wanted);
    ParseSerialized(unwanted);
    SetRoundTrip(s.genreInclude);
    SetRoundTrip(s.genreExclude);
    assert s.genreInclude + ParseCsv(at.preset.genreInclude) == s.genreInclude;
  }

  lemma PushGenresShown(at: Location, wanted: set<string>, unwanted: set<string>)
    ensures Shown(PushGenres(at, wanted, unwanted)) ==
      Shown(at).(genreInclude := ReadBack(wanted) + ParseCsv(at.preset.genreInclude), genreExclude := ReadBack(unwanted))
  {
    hide ParseCsv, SerializeSet, Pieces, Clean, Pushed, ReadSets;
    var s := Shown(at);
    var next := ReadParams(at.url, at.preset).(genreInclude := SerializeSet(wanted), genreExclude := SerializeSet(unwanted), page := Some(1));
    PushedSets(next, at.preset);
    ReadSetsAreClean(at.url, at.preset);
    ParseSerialized(wanted);
    ParseSerialized(unwanted);
    SetRoundTrip(s.tagInclude);
    SetRoundTrip(s.tagExclude);
    assert s.tagInclude + ParseCsv(at.preset.tagInclude) == s.tagInclude;
  }

  /** Adding names to one side of a disjoint pair. */
  lemma AddedBeside(side: set<string>, other: set<string>, preset: set<string>, added: set<string>, name: string)
    requires side !! other && preset <= side && name !in side + other
    ensures side + added + preset !! other - {name} <==> added !! other
  {
    assert other - {name} == other && side + added + preset == side + added;
  }

  /** What the four tag handlers show. An added name stands for its pieces and leaves the other side; a
      removed one leaves its side, unless it is a preset; the genres stay. */
  lemma TagShown(at: Location, tag: string)
    ensures var s, preset := Shown(at), ParseCsv(at.preset.tagInclude);
      && Shown(Next(at, TagIncludeAdd(tag))) == s.(tagInclude := s.tagInclude + Pieces(tag), tagExclude := s.tagExclude - {tag})
      && Shown(Next(at, TagExcludeAdd(tag))) == s.(tagInclude := s.tagInclude - {tag} + preset, tagExclude := s.tagExclude + Pieces(tag))
      && Shown(Next(at, TagIncludeRemove(tag))) == s.(tagInclude := s.tagInclude - {tag} + preset)
      && Shown(Next(at, TagExcludeRemove(tag))) == s.(tagExclude := s.tagExclude - {tag})
  {
    hide Pieces, ParseCsv, Shown, Clean, PushTags, ReadBack, ClickGenre, DropChip, ReadParams;
    var s, preset := Shown(at), ParseCsv(at.preset.tagInclude);
    PresetsShown(at);
    ShownReadBack(at, tag);
    PushTagsShown(at, s.tagInclude + {tag}, s.tagExclude - {tag});
    PushTagsShown(at, s.tagInclude - {tag}, s.tagExclude + {tag});
    PushTagsShown(at, s.tagInclude - {tag}, s.tagExclude);
    PushTagsShown(at, s.tagInclude, s.tagExclude - {tag});
    assert s.tagInclude + Pieces(tag) + preset == s.tagInclude + Pieces(tag) && s.tagInclude + preset == s.tagInclude;
  }

  lemma TagIncludeStep(at: Location, tag: string)
    requires tag !in Shown(at).tagInclude + Shown(at).tagExclude && Disjoint(Shown(at))
    ensures Disjoint(Shown(Next(at, TagIncludeAdd(tag)))) <==> Pieces(tag) !! Shown(at).tagExclude
  {
    hide Pieces, Shown, Next;
    TagShown(at, tag);
  }

  lemma TagExcludeStep(at: Location, tag: string)
    requires tag !in Shown(at).tagInclude + Shown(at).tagExclude && Disjoint(Shown(at))
    ensures Disjoint(Shown(Next(at, TagExcludeAdd(tag)))) <==> Pieces(tag) !! Shown(at).tagInclude
  {
    hide Pieces, ParseCsv, Shown, Next;
    TagShown(at, tag);
    PresetsShown(at);
    var s := Shown(at);
    assert s.tagInclude - {tag} + ParseCsv(at.preset.tagInclude) == s.tagInclude;
  }

  lemma GenreStep(at: Location, slug: string)
    requires Disjoint(Shown(at))
    ensures Disjoint(Shown(ClickGenre(at, slug))) <==> NoPieceOpposite(Shown(at), GenreClick(slug))
  {
    hide Pieces, ParseCsv, Shown, ClickGenre;
    GenreShown(at, slug);
    PresetsShown(at);
  }

  lemma ShownIsRead(at: Location)
    ensures Shown(at) == ReadSets(at.url, at.preset)
  {
  }

  /** What a genre click shows. */
  lemma GenreShown(at: Location, slug: string)
    ensures var s, preset := Shown(at), ParseCsv(at.preset.genreInclude);
      Shown(ClickGenre(at, slug)) ==
        if slug in s.genreInclude + s.genreExclude
        then s.(genreInclude := s.genreInclude - {slug} + preset, genreExclude := s.genreExclude - {slug})
        else s.(genreInclude := s.genreInclude + Pieces(slug))
  {
    hide Pieces, ParseCsv, Shown, Clean, PushGenres, ReadBack;
    var s, preset := Shown(at), ParseCsv(at.preset.genreInclude);
    PresetsShown(at);
    ShownReadBack(at, slug);
    if slug in s.genreInclude + s.genreExclude {
      PushGenresShown(at, s.genreInclude - {slug}, s.genreExclude - {slug});
    } else {
      PushGenresShown(at, s.genreInclude + {slug}, s.genreExclude - {slug});
      assert s.genreInclude + Pieces(slug) + preset == s.genreInclude + Pieces(slug);
      assert s.genreExclude - {slug} == s.genreExclude;
    }
  }

  lemma PresetsShown(at: Location)
    ensures ParseCsv(at.preset.genreInclude) <= Shown(at).genreInclude && ParseCsv(at.preset.tagInclude) <= Shown(at).tagInclude
  {
  }

  /** The sets on display, with or without a further name, survive being written and read. */
  lemma ShownReadBack(at: Location, name: string)
    ensures forall s :: s in {Shown(at).genreInclude, Shown(at).genreExclude, Shown(at).tagInclude, Shown(at).tagExclude} ==>
      ReadBack(s) == s && ReadBack(s + {name}) == s + Pieces(name) && ReadBack(s - {name}) == s - {name}
  {
    ReadSetsAreClean(at.url, at.preset);
    var s := Shown(at);
    hide ReadBack, Pieces, Clean, ParseCsv;
    ReadBackClean(s.genreInclude, name);
    ReadBackClean(s.genreExclude, name);
    ReadBackClean(s.tagInclude, name);
    ReadBackClean(s.tagExclude, name);
  }

  /** A removal shows no name that was not shown before. */
  ghost predicate Shrinks(s: Sets, s': Sets) {
    && s'.genreInclude <= s.genreInclude && s'.genreExclude <= s.genreExclude
    && s'.tagInclude <= s.tagInclude && s'.tagExclude <= s.tagExclude
  }

  lemma TagRemoveStep(at: Location, tag: string)
    ensures Shrinks(Shown(at), Shown(Next(at, TagIncludeRemove(tag)))) && Shrinks(Shown(at), Shown(Next(at, TagExcludeRemove(tag))))
  {
    hide ParseCsv, Shown, Next;
    TagShown(at, tag);
    PresetsShown(at);
  }

  lemma ChipStep(at: Location, key: Key, value: string)
    requires Enabled(at, RemoveChip(key, value))
    ensures Shrinks(Shown(at), Shown(DropChip(at, key, value)))
  {
    ChipLists(at, key, value);
    hide ParseCsv, DropChip, Get;
  }

  lemma ChipLists(at: Location, key: Key, value: string)
    requires Enabled(at, RemoveChip(key, value))
    ensures var at' := DropChip(at, key, value);
      && ParseCsv(at'.preset.genreInclude) <= ParseCsv(at.preset.genreInclude)
      && ParseCsv(at'.preset.tagInclude) <= ParseCsv(at.preset.tagInclude)
      && ParseCsv(Get(at'.url, GenreInclude)) <= ParseCsv(Get(at.url, GenreInclude)) + ParseCsv(at.preset.genreInclude)
      && ParseCsv(Get(at'.url, GenreExclude)) <= ParseCsv(Get(at.url, GenreExclude))
      && ParseCsv(Get(at'.url, TagInclude)) <= ParseCsv(Get(at.url, TagInclude)) + ParseCsv(at.preset.tagInclude)
      && ParseCsv(Get(at'.url, TagExclude)) <= ParseCsv(Get(at.url, TagExclude))
  {
    hide ParseCsv, SerializeSet, DropChip, Get, Clean, JsSpace, Pieces;
    ChipTexts(at, key, value);
    ChipPreset(at, key, value);
    var values := ParseCsv(Get(at.url, key)) + ParseCsv(PresetFor(at.preset, key)) - {value};
    ChipReadBack(at, key, value);
    NothingParsed();
  }

  function SetOf(s: Sets, key: Key): set<string> {
    match key
    case GenreInclude => s.genreInclude
    case GenreExclude => s.genreExclude
    case TagInclude => s.tagInclude
    case TagExclude => s.tagExclude
    case _ => {}
  }

  lemma ShownAt(at: Location, key: Key)
    requires key in {GenreInclude, GenreExclude, TagInclude, TagExclude}
    ensures SetOf(Shown(at), key) == ParseCsv(Get(at.url, key)) + ParseCsv(PresetFor(at.preset, key))
  {
    NothingParsed();
    hide ParseCsv, Get;
  }

  /** A dropped chip takes exactly its value off the set it stands for. */
  lemma ChipShown(at: Location, key: Key, value: string)
    requires Enabled(at, RemoveChip(key, value))
    ensures SetOf(Shown(DropChip(at, key, value)), key) == SetOf(Shown(at), key) - {value}
  {
    ShownAt(at, key);
    ShownAt(DropChip(at, key, value), key);
    ChipTexts(at, key, value);
    ChipReadBack(at, key, value);
    NoPresetFor(key);
    hide Shown, SetOf, Get, ParseCsv, SerializeSet, Clean, Enabled;
  }

  lemma NextIsDrop(at: Location, key: Key, value: string)
    ensures Next(at, RemoveChip(key, value)) == DropChip(at, key, value)
  {
  }

  lemma NoPresetFor(key: Key)
    ensures ParseCsv(PresetFor(NO_PRESET, key)) == {}
  {
  }

  lemma ChipReadBack(at: Location, key: Key, value: string)
    ensures var values := ParseCsv(Get(at.url, key)) + ParseCsv(PresetFor(at.preset, key)) - {value};
      ParseCsv(SerializeSet(values)) == values
  {
    hide ParseCsv, SerializeSet, Get, Clean, PresetFor;
    ParsedAreClean(Get(at.url, key));
    ParsedAreClean(PresetFor(at.preset, key));
    SetRoundTrip(ParseCsv(Get(at.url, key)) + ParseCsv(PresetFor(at.preset, key)) - {value});
  }

  lemma ChipPreset(at: Location, key: Key, value: string)
    ensures DropChip(at, key, value).preset == NO_PRESET || DropChip(at, key, value).preset == at.preset
  {
    hide ParseCsv, SerializeSet;
  }

  lemma ChipTexts(at: Location, key: Key, value: string)
    requires Enabled(at, RemoveChip(key, value))
    ensures var url := DropChip(at, key, value).url;
      Get(url, key) == SerializeSet(ParseCsv(Get(at.url, key)) + ParseCsv(PresetFor(at.preset, key)) - {value}) &&
      forall k: Key :: k != key && k != Page ==> Get(url, k) == Get(at.url, k)
  {
    hide ParseCsv, SerializeSet;
    var preset := ParseCsv(PresetFor(at.preset, key));
    var values := ParseCsv(Get(at.url, key)) + preset - {value};
    assert SerializeSet(values) == None <==> values == {} by { SerializedIff(values); }
  }

  lemma SerializedIff(s: set<string>)
    ensures SerializeSet(s) == None <==> s == {}
  {
  }

  /** Every handler keeps the included and excluded names apart, presets put back included, exactly when
      the name it adds does not fall apart into a piece that is selected on the other side. */
  lemma StepKeepsDisjoint(at: Location, e: Event)
    requires Enabled(at, e) && Disjoint(Shown(at))
    ensures Disjoint(Shown(Next(at, e))) <==> NoPieceOpposite(Shown(at), e)
  {
    match e
    case GenreClick(slug) => GenreStep(at, slug);
    case RemoveChip(key, value) => ChipStep(at, key, value);
    case ClearFilters => ClearStep(at);
    case ChangeOther(next) => OtherStep(at, next);
    case TagIncludeAdd(tag) => TagIncludeStep(at, tag);
    case TagExcludeAdd(tag) => TagExcludeStep(at, tag);
    case TagIncludeRemove(tag) => TagRemoveStep(at, tag);
    case TagExcludeRemove(tag) => TagRemoveStep(at, tag);
    case RemoveParams(keys) => ParamStep(at, e);
    case StripFocus => ParamStep(at, e);
  }

  lemma ClearStep(at: Location)
    ensures Shown(Next(at, ClearFilters)) == Sets(ParseCsv(at.preset.genreInclude), {}, ParseCsv(at.preset.tagInclude), {})
  {
    hide Pushed, ReadSets, ReadParams, ParseCsv, ClickGenre, DropChip, PushTags, PushGenres;
    var p := ReadParams(at.url, at.preset);
    PushedSets(NOTHING.(sortBy := p.sortBy, order := p.order, page := Some(1)), at.preset);
    NothingParsed();
  }

  lemma NothingParsed()
    ensures ParseCsv(None) == {}
  {
  }

  lemma OtherStep(at: Location, next: Params)
    requires Enabled(at, ChangeOther(next))
    ensures Shown(Next(at, ChangeOther(next))) == Shown(at)
  {
    hide Pushed, ReadSets, ParseCsv, SerializeSet, Clean, ClickGenre, DropChip, PushTags, PushGenres;
    PushedSets(next, at.preset);
    ReadSetsAreClean(at.url, at.preset);
    SetRoundTrip(Shown(at).genreInclude);
    SetRoundTrip(Shown(at).genreExclude);
    SetRoundTrip(Shown(at).tagInclude);
    SetRoundTrip(Shown(at).tagExclude);
    assert Shown(at).genreInclude + ParseCsv(at.preset.genreInclude) == Shown(at).genreInclude;
    assert Shown(at).tagInclude + ParseCsv(at.preset.tagInclude) == Shown(at).tagInclude;
  }

  lemma ParamStep(at: Location, e: Event)
    requires e.RemoveParams? || e.StripFocus?
    ensures Shrinks(Shown(at), Shown(Next(at, e)))
  {
    assert ParseCsv(None) == {};
    hide ParseCsv;
  }

  // ---- What the handlers leave alone ----

  predicate IsStatus(status: Option<string>) {
    status.None? || IsStatusValue(status.value)
  }

  /** All but the four lists of what is read after `next` was pushed: an empty text and an absent one are
      the default, and a page below the second is the first. */
  predicate RestReadBack(next: Params, p: Params) {
    && p.q == (if next.q == Some("") then None else next.q)
    && p.searchSynopsis == (if next.searchSynopsis == Some(true) then Some(true) else None)
    && (IsStatus(next.publicationStatus) ==>
          p.publicationStatus == next.publicationStatus)
    && p.sortBy == (if next.sortBy.None? || next.sortBy == Some("") then Some("added_at") else next.sortBy)
    && p.order == (if next.order.None? || next.order == Some("") then Some("desc") else next.order)
    && p.minChapters == next.minChapters && p.maxChapters == next.maxChapters
    && p.genreOp == (if next.genreOp == Some("") || next.genreOp == Some("and") then None else next.genreOp)
    && p.tagOp == (if next.tagOp == Some("") || next.tagOp == Some("and") then None else next.tagOp)
    && p.page == Some(if next.page.Some? && next.page.value > 1 then next.page.value else 1) && p.pageSize == Some(20)
  }

  lemma DefaultReadBack(text: Option<string>, default: string)
    requires default != ""
    ensures Some(Unless(text, default).GetOr(default)) == if text in {None, Some("")} then Some(default) else text
  {
  }

  lemma OpReadBack(op: Option<string>)
    ensures ReadOp(Unless(op, "and")) == if op in {Some(""), Some("and")} then None else op
  {
    assert "and" != "";
  }

  lemma PushedTextRest(url: Url, next: Params, preset: Preset)
    requires IsPushed(url, next, preset)
    ensures var p := ReadParams(url, preset);
      && p.q == (if next.q == Some("") then None else next.q)
      && p.searchSynopsis == (if next.searchSynopsis == Some(true) then Some(true) else None)
      && p.sortBy == (if next.sortBy.None? || next.sortBy == Some("") then Some("added_at") else next.sortBy)
      && p.order == (if next.order.None? || next.order == Some("") then Some("desc") else next.order)
      && p.genreOp == (if next.genreOp == Some("") || next.genreOp == Some("and") then None else next.genreOp)
      && p.tagOp == (if next.tagOp == Some("") || next.tagOp == Some("and") then None else next.tagOp)
      && p.sourceKey == preset.sourceKey && p.pageSize == Some(20)
  {
    PushedTexts(url, next, preset);
    hide IsPushed, Get, ParseCsv, SerializeSet, ReadBound, ReadPage, ToStatus, ReadSets, ReadOp, Unless;
    DefaultReadBack(next.sortBy, "added_at");
    DefaultReadBack(next.order, "desc");
    OpReadBack(next.genreOp);
    OpReadBack(next.tagOp);
    FlagCases(next.searchSynopsis);
    assert Unless(next.q, "") == (if next.q == Some("") then None else next.q) by { EmptyIsAbsent(next.q); }
  }

  lemma EmptyIsAbsent(text: Option<string>)
    ensures Unless(text, "") == if text == Some("") then None else text
  {
  }

  lemma PushedNumberRest(url: Url, next: Params, preset: Preset)
    requires IsPushed(url, next, preset)
    ensures var p := ReadParams(url, preset);
      && p.minChapters == next.minChapters && p.maxChapters == next.maxChapters
      && p.page == Some(if next.page.Some? && next.page.value > 1 then next.page.value else 1)
      && (IsStatus(next.publicationStatus) ==>
            p.publicationStatus == next.publicationStatus)
  {
    PushedNumbers(url, next, preset);
    PushedTexts(url, next, preset);
    hide IsPushed, Get, ParseCsv, SerializeSet, ReadBound, ReadPage, ToStatus, ReadSets, ReadOp, Unless, NumberText;
    BoundRoundTrip(next.minChapters);
    BoundRoundTrip(next.maxChapters);
    PageReadBack(next.page);
    StatusReadBack(next.publicationStatus);
  }

  lemma PushedRest(next: Params, preset: Preset)
    ensures var p := ReadParams(Pushed(next, preset), preset);
      RestReadBack(next, p) && p.sourceKey == preset.sourceKey
  {
    hide Pushed, IsPushed, ReadParams;
    PushedIsPushed(next, preset);
    PushedTextRest(Pushed(next, preset), next, preset);
    PushedNumberRest(Pushed(next, preset), next, preset);
  }

  lemma PageReadBack(page: Option<int>)
    ensures ReadPage(if page.Some? && page.value > 1 then Some(NumberText(Whole(page.value))) else None) ==
            if page.Some? && page.value > 1 then page.value else 1
  {
    NumberRoundTrip(Whole(1));
    assert NumberText(Whole(1)) == "1";
    if page.Some? {
      NumberRoundTrip(Whole(page.value));
    }
  }

  lemma ReadStatusIsValid(url: Url, preset: Preset)
    ensures IsStatus(ReadParams(url, preset).publicationStatus)
  {
    var status := ToStatus(Get(url, PublicationStatus));
    hide ToStatus, ParseCsv, SerializeSet;
    if status.Some? {
      assert IsStatusValue(status.value);
    }
  }

  predicate IsListHandler(e: Event) {
    e.GenreClick? || e.TagIncludeAdd? || e.TagIncludeRemove? || e.TagExcludeAdd? || e.TagExcludeRemove?
  }

  /** The genre and tag handlers keep every other parameter and go back to the first page. */
  lemma HandlerKeepsRest(at: Location, e: Event)
    requires IsListHandler(e)
    ensures var p, after := ReadParams(at.url, at.preset), Next(at, e);
      && after.preset == at.preset
      && RestReadBack(p.(page := Some(1)), ReadParams(after.url, after.preset))
      && ReadParams(after.url, after.preset).publicationStatus == p.publicationStatus
  {
    ReadStatusIsValid(at.url, at.preset);
    hide ReadParams, Pushed, SerializeSet, ParseCsv, Shown, DropChip;
    var p := ReadParams(at.url, at.preset);
    if e.GenreClick? {
      GenrePush(at, e.slug);
    } else {
      TagPush(at, e);
    }
  }

  lemma ListPush(at: Location, next: Params)
    requires var p := ReadParams(at.url, at.preset);
      next == p.(genreInclude := next.genreInclude, genreExclude := next.genreExclude,
                 tagInclude := next.tagInclude, tagExclude := next.tagExclude, page := Some(1))
    ensures RestReadBack(ReadParams(at.url, at.preset).(page := Some(1)), ReadParams(Pushed(next, at.preset), at.preset))
  {
    hide ReadParams, Pushed;
    PushedRest(next, at.preset);
  }

  lemma GenrePush(at: Location, slug: string)
    ensures var after := ClickGenre(at, slug);
      after.preset == at.preset &&
      RestReadBack(ReadParams(at.url, at.preset).(page := Some(1)), ReadParams(after.url, after.preset))
  {
    hide ReadParams, Pushed, SerializeSet, ParseCsv, Shown, RestReadBack;
    forall wanted, unwanted
      ensures var after := PushGenres(at, wanted, unwanted);
        after.preset == at.preset && RestReadBack(ReadParams(at.url, at.preset).(page := Some(1)), ReadParams(after.url, after.preset))
    {
      ListPush(at, ReadParams(at.url, at.preset).(genreInclude := SerializeSet(wanted), genreExclude := SerializeSet(unwanted), page := Some(1)));
    }
    hide PushGenres;
  }

  lemma TagPush(at: Location, e: Event)
    requires IsListHandler(e) && !e.GenreClick?
    ensures var after := Next(at, e);
      after.preset == at.preset &&
      RestReadBack(ReadParams(at.url, at.preset).(page := Some(1)), ReadParams(after.url, after.preset))
  {
    hide ReadParams, Pushed, SerializeSet, ParseCsv, Shown, RestReadBack, ClickGenre, DropChip;
    forall wanted, unwanted
      ensures var after := PushTags(at, wanted, unwanted);
        after.preset == at.preset && RestReadBack(ReadParams(at.url, at.preset).(page := Some(1)), ReadParams(after.url, after.preset))
    {
      ListPush(at, ReadParams(at.url, at.preset).(tagInclude := SerializeSet(wanted), tagExclude := SerializeSet(unwanted), page := Some(1)));
    }
    hide PushTags;
  }

  /** Clearing keeps the sort and its direction and nothing else. */
  lemma ClearKeepsOrder(at: Location)
    ensures var p, after := ReadParams(at.url, at.preset), Next(at, ClearFilters);
      after.preset == at.preset &&
      var p' := ReadParams(after.url, after.preset);
      && p'.q.None? && p'.searchSynopsis.None? && p'.publicationStatus.None? && p'.minChapters.None? && p'.maxChapters.None?
      && p'.genreOp.None? && p'.tagOp.None? && p'.page == Some(1)
      && p'.sortBy == (if p.sortBy == Some("") then Some("added_at") else p.sortBy)
      && p'.order == (if p.order == Some("") then Some("desc") else p.order)
  {
    SortIsRead(at.url, at.preset);
    ClearPush(at);
    hide ReadParams, Pushed, Next, RestReadBack;
    var p := ReadParams(at.url, at.preset);
    var next := NOTHING.(sortBy := p.sortBy, order := p.order, page := Some(1));
    PushedRest(next, at.preset);
    NothingReadBack(p.sortBy, p.order, ReadParams(Pushed(next, at.preset), at.preset));
  }

  lemma SortIsRead(url: Url, preset: Preset)
    ensures ReadParams(url, preset).sortBy.Some? && ReadParams(url, preset).order.Some?
  {
  }

  lemma ClearPush(at: Location)
    ensures var p := ReadParams(at.url, at.preset);
      Next(at, ClearFilters) == at.(url := Pushed(NOTHING.(sortBy := p.sortBy, order := p.order, page := Some(1)), at.preset))
  {
    hide ReadParams, Pushed, ClickGenre, DropChip, PushTags, PushGenres, Shown;
  }

  lemma NothingReadBack(sortBy: Option<string>, order: Option<string>, p: Params)
    requires sortBy.Some? && order.Some? && RestReadBack(NOTHING.(sortBy := sortBy, order := order, page := Some(1)), p)
    ensures p.q.None? && p.searchSynopsis.None? && p.publicationStatus.None? && p.minChapters.None? && p.maxChapters.None?
    ensures p.genreOp.None? && p.tagOp.None? && p.page == Some(1)
    ensures p.sortBy == (if sortBy == Some("") then Some("added_at") else sortBy)
    ensures p.order == (if order == Some("") then Some("desc") else order)
  {
  }

  /** Dropping parameters, or a chip, touches no other parameter but the page. */
  lemma OthersKept(at: Location, e: Event, key: Key)
    requires e.RemoveParams? || e.StripFocus? || e.RemoveChip?
    ensures Get(Next(at, e).url, key) ==
      match e
      case RemoveParams(keys) => if key in keys || key == Page then None else Get(at.url, key)
      case StripFocus => if key == OtherKey("focus") then None else Get(at.url, key)
      case RemoveChip(k, _) => if key == k then Get(Next(at, e).url, k) else if key == Page then None else Get(at.url, key)
      case _ => None
    ensures !e.RemoveChip? ==> Next(at, e).preset == at.preset
  {
    hide ReadParams, Shown, ClickGenre, PushTags, PushGenres, ParseCsv;
  }

  /** A catalog URL without any parameter. */
  lemma PlainUrl(preset: Preset)
    ensures ReadParams(map[], preset) == Params(
      None, None, None, preset.sourceKey, Some("added_at"), Some("desc"), None, None,
      SerializeSet(ParseCsv(preset.genreInclude)), None, None, SerializeSet(ParseCsv(preset.tagInclude)), None, None, Some(1), Some(20))
  {
    var url: Url := map[];
    NothingParsed();
    PageReadBack(None);
    hide ParseCsv, SerializeSet, ReadPage;
    assert {} + ParseCsv(preset.genreInclude) == ParseCsv(preset.genreInclude);
    assert {} + ParseCsv(preset.tagInclude) == ParseCsv(preset.tagInclude);
    SerializedIff({});
  }

  /** Which texts are read as which status, in any letter case and with white space around. */
  lemma StatusTexts(text: string)
    ensures var t := Lower(Trim(text, JsSpace));
      ToStatus(Some(text)) ==
        if t == "completed" || t == "ongoing" || t == "hiatus" || t == "cancelled" || t == "unknown" then Some(t)
        else if t == "dropped" then Some("unknown") else None
  {
    BlankIsNoStatus();
    hide JsSpace, Trim, Lower;
  }

  lemma BlankIsNoStatus()
    ensures Lower(Trim("", JsSpace)) == ""
  {
  }

  // ---- Whole runs ----

  function After(at: Location, events: seq<Event>): Location {
    if events == [] then at else Next(After(at, events[..|events| - 1]), events[|events| - 1])
  }

  predicate AddsCleanName(e: Event) {
    match e
    case GenreClick(slug) => Clean(slug)
    case TagIncludeAdd(tag) => Clean(tag)
    case TagExcludeAdd(tag) => Clean(tag)
    case _ => true
  }

  /** From any URL whose included and excluded names are apart, every run of handlers that adds clean
      names keeps them apart. */
  lemma {:induction false} RunKeepsDisjoint(at: Location, events: seq<Event>)
    requires Disjoint(Shown(at))
    requires forall i :: 0 <= i < |events| ==> AddsCleanName(events[i]) && Enabled(After(at, events[..i]), events[i])
    ensures Disjoint(Shown(After(at, events)))
  {
    hide Disjoint, Shown, Next, Enabled, AddsCleanName, NoPieceOpposite;
    if events != [] {
      var last := |events| - 1;
      var before := events[..last];
      forall i | 0 <= i < |before| ensures AddsCleanName(before[i]) && Enabled(After(at, before[..i]), before[i]) {
        assert before[..i] == events[..i];
      }
      RunKeepsDisjoint(at, before);
      var e := events[last];
      CleanAddsKeepApart(After(at, before), e);
      StepKeepsDisjoint(After(at, before), e);
    }
  }

  lemma CleanAddsKeepApart(at: Location, e: Event)
    requires Enabled(at, e) && AddsCleanName(e)
    ensures NoPieceOpposite(Shown(at), e)
  {
    match e
    case GenreClick(slug) => CleanIsOnePiece(slug);
    case TagIncludeAdd(tag) => CleanIsOnePiece(tag);
    case TagExcludeAdd(tag) => CleanIsOnePiece(tag);
    case _ =>
  }

  /** Names with a comma do break it: with `b` excluded, any tag `a,b` is still offered and, once added,
      puts `b` on both sides. */
  lemma CommaNameBreaksDisjoint(a: string, b: string)
    requires Clean(b)
    ensures var at := Location(map[TagExclude := b], NO_PRESET); var e := TagIncludeAdd(a + "," + b);
      Disjoint(Shown(at)) && Enabled(at, e) && !Disjoint(Shown(Next(at, e)))
  {
    var at := Location(map[TagExclude := b], NO_PRESET);
    OnlyExcluded(b);
    LastPiece(a, b);
    assert |a + "," + b| > |b|;
    hide Shown, Pieces, Clean;
    StepKeepsDisjoint(at, TagIncludeAdd(a + "," + b));
    hide Next;
  }

  lemma OnlyExcluded(name: string)
    requires Clean(name)
    ensures Shown(Location(map[TagExclude := name], NO_PRESET)) == Sets({}, {}, {}, {name})
  {
    CleanIsOnePiece(name);
    hide Pieces;
  }

  lemma LastPiece(a: string, b: string)
    requires Clean(b)
    ensures b in Pieces(a + "," + b)
  {
    SplitAtSeparator(a, ',', b);
    SplitWithout(b, ',');
    assert b in Split(a, ',') + [b];
    assert Trim(b, JsSpace) == b;
    PieceOf(a + "," + b, b);
  }

  // ---- The page ----

  lemma SameEntriesSameUrl(a: Url, b: Url)
    requires forall key :: Get(a, key) == Get(b, key)
    ensures a == b
  {
    forall key ensures key in a <==> key in b {
      assert Get(a, key) == Get(b, key);
    }
    forall key | key in a ensures a[key] == b[key] {
      assert Get(a, key) == Get(b, key);
    }
  }

  lemma GenreClicked(at: Location, slug: string)
    ensures Next(at, GenreClick(slug)) == ClickGenre(at, slug)
    ensures var s, preset := Shown(at), ParseCsv(at.preset.genreInclude);
      Shown(Next(at, GenreClick(slug))) ==
        if slug in s.genreInclude + s.genreExclude
        then s.(genreInclude := s.genreInclude - {slug} + preset, genreExclude := s.genreExclude - {slug})
        else s.(genreInclude := s.genreInclude + Pieces(slug))
  {
    hide Shown, ClickGenre, DropChip, PushTags, ReadParams, ParseCsv, Pieces;
    GenreShown(at, slug);
  }

  lemma OthersKeptByChip(at: Location, key: Key, value: string, k: Key)
    ensures k != key ==> Get(Next(at, RemoveChip(key, value)).url, k) == if k == Page then None else Get(at.url, k)
  {
    hide Get, Next;
    OthersKept(at, RemoveChip(key, value), k);
  }

  lemma TagNext(at: Location, tag: string)
    ensures var s := Shown(at);
      && Next(at, TagIncludeAdd(tag)) == PushTags(at, s.tagInclude + {tag}, s.tagExclude - {tag})
      && Next(at, TagIncludeRemove(tag)) == PushTags(at, s.tagInclude - {tag}, s.tagExclude)
      && Next(at, TagExcludeAdd(tag)) == PushTags(at, s.tagInclude - {tag}, s.tagExclude + {tag})
      && Next(at, TagExcludeRemove(tag)) == PushTags(at, s.tagInclude, s.tagExclude - {tag})
  {
    hide PushTags, PushGenres, ClickGenre, DropChip, ReadParams, Shown;
  }

  lemma TagsNext(at: Location)
    ensures forall tag :: Next(at, TagIncludeRemove(tag)) == PushTags(at, Shown(at).tagInclude - {tag}, Shown(at).tagExclude)
  {
    hide Next, PushTags, Shown;
    forall tag ensures Next(at, TagIncludeRemove(tag)) == PushTags(at, Shown(at).tagInclude - {tag}, Shown(at).tagExclude) {
      TagNext(at, tag);
    }
  }

  class BrowsePage {
    var url: Url
    var preset: Preset

    function At(): Location
      reads this
    {
      Location(url, preset)
    }

    /** Deletes the preset's names from a list one by one. */
    static method ListForUrl(list: Option<string>, preset: Option<string>) returns (text: Option<string>)
      ensures text == WithoutPreset(list, preset)
    {
      if !Truthy(list) {
        return None;
      }
      var values := ParseCsv(list);
      var names := ParseCsv(preset);
      while names != {}
        invariant values - names == ParseCsv(list) - ParseCsv(preset)
        decreases names
      {
        var name :| name in names;
        values := values - {name};
        names := names - {name};
      }
      assert values == ParseCsv(list) - ParseCsv(preset);
      text := SerializeSet(values);
    }

    static function Put(sp: Url, key: Key, text: Option<string>): Url {
      if text.Some? then sp[key := text.value] else sp
    }

    /** The search text, the status, the order and the chapter bounds. */
    static method PutPlain(next: Params, preset: Preset) returns (sp: Url)
      ensures forall key :: Get(sp, key) == (if IsPlainKey(key) then Entry(next, preset, key) else None)
    {
      hide Unless, NumberText;
      sp := Put(map[], Q, Unless(next.q, ""));
      if next.searchSynopsis == Some(true) {
        sp := sp[SearchSynopsis := TRUE_TEXT];
      }
      sp := Put(sp, PublicationStatus, Unless(next.publicationStatus, ""));
      sp := Put(sp, SortBy, Unless(next.sortBy, "added_at"));
      sp := Put(sp, Order, Unless(next.order, "desc"));
      if next.minChapters.Some? {
        sp := sp[MinChapters := NumberText(next.minChapters.value)];
      }
      if next.maxChapters.Some? {
        sp := sp[MaxChapters := NumberText(next.maxChapters.value)];
      }
    }

    /** The genre and tag lists with their operators, and the page. */
    static method PutLists(start: Url, next: Params, preset: Preset) returns (sp: Url)
      requires forall key :: key in start ==> IsPlainKey(key)
      ensures forall key :: Get(sp, key) == (if IsListKey(key) then Entry(next, preset, key) else Get(start, key))
    {
      var genres := ListForUrl(next.genreInclude, preset.genreInclude);
      var tags := ListForUrl(next.tagInclude, preset.tagInclude);
      hide WithoutPreset, Unless, NumberText, Get, Put, Entry;
      NoLists(start);
      sp := start;
      PutGets(sp, GenreInclude, genres);
      sp := Put(sp, GenreInclude, genres);
      PutGets(sp, GenreExclude, Unless(next.genreExclude, ""));
      sp := Put(sp, GenreExclude, Unless(next.genreExclude, ""));
      PutGets(sp, GenreOp, Unless(next.genreOp, "and"));
      sp := Put(sp, GenreOp, Unless(next.genreOp, "and"));
      PutGets(sp, TagInclude, tags);
      sp := Put(sp, TagInclude, tags);
      PutGets(sp, TagExclude, Unless(next.tagExclude, ""));
      sp := Put(sp, TagExclude, Unless(next.tagExclude, ""));
      PutGets(sp, TagOp, Unless(next.tagOp, "and"));
      sp := Put(sp, TagOp, Unless(next.tagOp, "and"));
      var page := if next.page.Some? && next.page.value > 1 then Some(NumberText(Whole(next.page.value))) else None;
      PutGets(sp, Page, page);
      sp := Put(sp, Page, page);
      ListEntries(next, preset);
    }

    static lemma NoLists(start: Url)
      requires forall key :: key in start ==> IsPlainKey(key)
      ensures forall key :: IsListKey(key) ==> Get(start, key) == None
    {
    }

    static lemma PutGets(sp: Url, key: Key, text: Option<string>)
      requires Get(sp, key) == None
      ensures forall k :: Get(Put(sp, key, text), k) == if k == key then text else Get(sp, k)
    {
    }

    static lemma ListEntries(next: Params, preset: Preset)
      ensures Entry(next, preset, GenreInclude) == WithoutPreset(next.genreInclude, preset.genreInclude)
      ensures Entry(next, preset, GenreExclude) == Unless(next.genreExclude, "")
      ensures Entry(next, preset, GenreOp) == Unless(next.genreOp, "and")
      ensures Entry(next, preset, TagInclude) == WithoutPreset(next.tagInclude, preset.tagInclude)
      ensures Entry(next, preset, TagExclude) == Unless(next.tagExclude, "")
      ensures Entry(next, preset, TagOp) == Unless(next.tagOp, "and")
      ensures Entry(next, preset, Page) == if next.page.Some? && next.page.value > 1 then Some(NumberText(Whole(next.page.value))) else None
    {
      hide WithoutPreset, Unless, NumberText;
    }

    method PushParams(next: Params)
      modifies this`url
      ensures IsPushed(url, next, preset)
    {
      var sp := PutPlain(next, preset);
      assert forall key :: key in sp ==> Get(sp, key).Some?;
      url := PutLists(sp, next, preset);
      hide WithoutPreset, Unless, NumberText, Get;
    }

    method Push(next: Params)
      modifies this`url
      ensures url == Pushed(next, preset)
    {
      PushParams(next);
      PushedIsPushed(next, preset);
      forall key ensures Get(url, key) == Get(Pushed(next, preset), key) {
        assert Get(url, key) == Entry(next, preset, key);
        assert Get(Pushed(next, preset), key) == Entry(next, preset, key);
      }
      SameEntriesSameUrl(url, Pushed(next, preset));
    }

    /** A genre on either side goes back to neutral, unless it is a preset; a neutral one is included. */
    method HandleGenreClick(slug: string)
      modifies this`url
      ensures At() == Next(old(At()), GenreClick(slug))
      ensures var was, preset := Shown(old(At())), ParseCsv(preset.genreInclude);
        Shown(At()) ==
          if slug in was.genreInclude + was.genreExclude
          then was.(genreInclude := was.genreInclude - {slug} + preset, genreExclude := was.genreExclude - {slug})
          else was.(genreInclude := was.genreInclude + Pieces(slug))
      ensures RestReadBack(ReadParams(old(url), preset).(page := Some(1)), ReadParams(url, preset))
    {
      hide Shown, Next, ClickGenre, DropChip, ReadParams, RestReadBack, ParseCsv, Pieces, Get, PresetFor, SetOf, Shrinks, Enabled;
      GenreClicked(At(), slug);
      HandlerKeepsRest(At(), GenreClick(slug));
      ToggleGenre(slug);
    }

    method ToggleGenre(slug: string)
      modifies this`url
      ensures At() == ClickGenre(old(At()), slug)
    {
      ShownIsRead(At());
      hide ReadSets, Shown, ReadParams, SerializeSet, Pushed, IsPushed;
      var shown := ReadSets(url, preset);
      var nextInclude, nextExclude := shown.genreInclude, shown.genreExclude;
      if slug in nextInclude {
        nextInclude, nextExclude := nextInclude - {slug}, nextExclude - {slug};
      } else if slug in nextExclude {
        nextExclude, nextInclude := nextExclude - {slug}, nextInclude - {slug};
      } else {
        nextInclude, nextExclude := nextInclude + {slug}, nextExclude - {slug};
      }
      Push(ReadParams(url, preset).(genreInclude := SerializeSet(nextInclude), genreExclude := SerializeSet(nextExclude), page := Some(1)));
    }

    /** Pushes tag sets computed from what a page showed when it was rendered. */
    method PushTagSets(at: Location, wanted: set<string>, unwanted: set<string>)
      requires at.preset == preset
      modifies this`url
      ensures At() == PushTags(at, wanted, unwanted)
    {
      hide ReadParams, Pushed, SerializeSet, IsPushed;
      Push(ReadParams(at.url, at.preset).(tagInclude := SerializeSet(wanted), tagExclude := SerializeSet(unwanted), page := Some(1)));
    }

    /** The name's pieces are included, and it is no longer excluded. */
    method HandleTagIncludeAdd(tag: string)
      modifies this`url
      ensures At() == Next(old(At()), TagIncludeAdd(tag))
      ensures var was, names := Shown(old(At())), ParseCsv(preset.tagInclude); Shown(At()) == was.(tagInclude := was.tagInclude + Pieces(tag), tagExclude := was.tagExclude - {tag})
      ensures RestReadBack(ReadParams(old(url), preset).(page := Some(1)), ReadParams(url, preset))
    {
      hide Shown, Next, PushTags, ReadParams, ReadSets, ParseCsv, Pieces, RestReadBack;
      TagShown(At(), tag);
      HandlerKeepsRest(At(), TagIncludeAdd(tag));
      TagNext(At(), tag);
      ShownIsRead(At());
      var wanted, unwanted := ReadSets(url, preset).tagInclude, ReadSets(url, preset).tagExclude;
      wanted := wanted + {tag};
      unwanted := unwanted - {tag};
      PushTagSets(At(), wanted, unwanted);
    }

    /** The name is no longer included, unless it is a preset. */
    method HandleTagIncludeRemove(tag: string)
      modifies this`url
      ensures At() == Next(old(At()), TagIncludeRemove(tag))
      ensures var was, names := Shown(old(At())), ParseCsv(preset.tagInclude); Shown(At()) == was.(tagInclude := was.tagInclude - {tag} + names)
      ensures RestReadBack(ReadParams(old(url), preset).(page := Some(1)), ReadParams(url, preset))
    {
      hide Shown, Next, PushTags, ReadParams, ReadSets, ParseCsv, Pieces, RestReadBack;
      TagShown(At(), tag);
      HandlerKeepsRest(At(), TagIncludeRemove(tag));
      TagNext(At(), tag);
      ShownIsRead(At());
      var wanted, unwanted := ReadSets(url, preset).tagInclude, ReadSets(url, preset).tagExclude;
      wanted := wanted - {tag};
      PushTagSets(At(), wanted, unwanted);
    }

    /** The name's pieces are excluded, and it is no longer included, unless it is a preset. */
    method HandleTagExcludeAdd(tag: string)
      modifies this`url
      ensures At() == Next(old(At()), TagExcludeAdd(tag))
      ensures var was, names := Shown(old(At())), ParseCsv(preset.tagInclude); Shown(At()) == was.(tagInclude := was.tagInclude - {tag} + names, tagExclude := was.tagExclude + Pieces(tag))
      ensures RestReadBack(ReadParams(old(url), preset).(page := Some(1)), ReadParams(url, preset))
    {
      hide Shown, Next, PushTags, ReadParams, ReadSets, ParseCsv, Pieces, RestReadBack;
      TagShown(At(), tag);
      HandlerKeepsRest(At(), TagExcludeAdd(tag));
      TagNext(At(), tag);
      ShownIsRead(At());
      var wanted, unwanted := ReadSets(url, preset).tagInclude, ReadSets(url, preset).tagExclude;
      unwanted := unwanted + {tag};
      wanted := wanted - {tag};
      PushTagSets(At(), wanted, unwanted);
    }

    /** The name is no longer excluded. */
    method HandleTagExcludeRemove(tag: string)
      modifies this`url
      ensures At() == Next(old(At()), TagExcludeRemove(tag))
      ensures var was, names := Shown(old(At())), ParseCsv(preset.tagInclude); Shown(At()) == was.(tagExclude := was.tagExclude - {tag})
      ensures RestReadBack(ReadParams(old(url), preset).(page := Some(1)), ReadParams(url, preset))
    {
      hide Shown, Next, PushTags, ReadParams, ReadSets, ParseCsv, Pieces, RestReadBack;
      TagShown(At(), tag);
      HandlerKeepsRest(At(), TagExcludeRemove(tag));
      TagNext(At(), tag);
      ShownIsRead(At());
      var wanted, unwanted := ReadSets(url, preset).tagInclude, ReadSets(url, preset).tagExclude;
      unwanted := unwanted - {tag};
      PushTagSets(At(), wanted, unwanted);
    }

    /** The value is gone from its set and from no other; leaving a preset page drops its other presets. */
    method RemoveValue(key: Key, value: string)
      requires Enabled(At(), RemoveChip(key, value))
      modifies this
      ensures At() == Next(old(At()), RemoveChip(key, value))
      ensures SetOf(Shown(At()), key) == SetOf(Shown(old(At())), key) - {value}
      ensures Shrinks(Shown(old(At())), Shown(At()))
      ensures preset == if value in ParseCsv(PresetFor(old(preset), key)) then NO_PRESET else old(preset)
      ensures forall k :: k != key ==> Get(url, k) == if k == Page then None else Get(old(url), k)
    {
      hide Shown, Next, ClickGenre, DropChip, ReadParams, RestReadBack, ParseCsv, Pieces, Get, PresetFor, SetOf, Shrinks, Enabled;
      forall k ensures k != key ==> Get(Next(At(), RemoveChip(key, value)).url, k) == if k == Page then None else Get(url, k) {
        OthersKeptByChip(At(), key, value, k);
      }
      ChipStep(At(), key, value);
      ChipShown(At(), key, value);
      NextIsDrop(At(), key, value);
      DropValue(key, value);
    }

    method DropValue(key: Key, value: string)
      modifies this
      ensures At() == DropChip(old(At()), key, value)
      ensures preset == if value in ParseCsv(PresetFor(old(preset), key)) then NO_PRESET else old(preset)
    {
      SerializedIff(ParseCsv(Get(url, key)) + ParseCsv(PresetFor(preset, key)) - {value});
      hide ParseCsv, SerializeSet, Get, PresetFor;
      var presetValues := ParseCsv(PresetFor(preset, key));
      var values := ParseCsv(Get(url, key)) + presetValues - {value};
      if values != {} {
        url := url[key := SerializeSet(values).value];
      } else {
        url := url - {key};
      }
      url := url - {Page};
      if value in presetValues {
        preset := NO_PRESET;
      }
    }

    /**
      The clear button of the include box calls the remove handler once per tag. Every call computes
      from the sets of the render the button belongs to and replaces the whole URL, so the last call
      wins: the box is emptied of all but the preset exactly when nothing but the last tag and the
      preset was in it.
     */
    method ClearIncludedTags(tags: seq<string>)
      requires tags != [] && (set tag | tag in tags) == Shown(At()).tagInclude
      modifies this`url
      ensures Shown(At()) == Shown(old(At())).(
        tagInclude := Shown(old(At())).tagInclude - {tags[|tags| - 1]} + ParseCsv(preset.tagInclude))
      ensures Shown(At()).tagInclude == ParseCsv(preset.tagInclude) <==>
        Shown(old(At())).tagInclude <= ParseCsv(preset.tagInclude) + {tags[|tags| - 1]}
    {
      hide Shown, Next, ClickGenre, DropChip, ReadParams, RestReadBack, ParseCsv, Pieces, Get, PresetFor, SetOf, Shrinks, Enabled;
      ghost var rendered := At();
      RemoveEach(tags);
      TagShown(rendered, tags[|tags| - 1]);
      ClearedIff(rendered, tags[|tags| - 1]);
    }

    method RemoveEach(tags: seq<string>)
      requires tags != []
      modifies this`url
      ensures At() == Next(old(At()), TagIncludeRemove(tags[|tags| - 1]))
    {
      var rendered := At();
      var shown := ReadSets(url, preset);
      ShownIsRead(rendered);
      TagsNext(rendered);
      hide ParseCsv, ReadSets, Next, PushTags, Shown;
      var i := 0;
      while i < |tags|
        invariant 0 <= i <= |tags|
        invariant preset == rendered.preset
        invariant i > 0 ==> At() == Next(rendered, TagIncludeRemove(tags[i - 1]))
      {
        PushTagSets(rendered, shown.tagInclude - {tags[i]}, shown.tagExclude);
        i := i + 1;
      }
    }
  }

  /** With the tags `a` and `b` in the box, the clear button leaves `a`. */
  method ClearOfTwoTags() returns (left: set<string>)
    ensures left == {"a"}
  {
    var page := new BrowsePage;
    page.url, page.preset := map[TagInclude := "a,b"], NO_PRESET;
    hide Shown, ParseCsv;
    TwoTagsShown();
    assert (set tag | tag in ["a", "b"]) == {"a", "b"};
    NothingParsed();
    page.ClearIncludedTags(["a", "b"]);
    assert {"a", "b"} - {"b"} + {} == {"a"};
    left := Shown(page.At()).tagInclude;
  }

  lemma TwoTagsShown()
    ensures Shown(Location(map[TagInclude := "a,b"], NO_PRESET)).tagInclude == {"a", "b"}
  {
    hide Split, Trim;
    assert Clean("a") && Clean("b") by { LettersAreClean(); }
    SplitWithout("a", ',');
    SplitWithout("b", ',');
    SplitAtSeparator("a", ',', "b");
    assert "a" + "," + "b" == "a,b";
    assert Split("a,b", ',') == ["a", "b"];
    assert Trim("a", JsSpace) == "a" && Trim("b", JsSpace) == "b";
    forall piece ensures piece in Pieces("a,b") <==> piece in {"a", "b"} {
      PieceOf("a,b", piece);
      assert piece in ["a", "b"] <==> piece == "a" || piece == "b";
    }
  }

  lemma LettersAreClean()
    ensures Clean("a") && Clean("b")
  {
  }

  lemma ClearedIff(at: Location, last: string)
    ensures var s, preset := Shown(at), ParseCsv(at.preset.tagInclude);
      s.tagInclude - {last} + preset == preset <==> s.tagInclude <= preset + {last}
  {
    hide ParseCsv, Shown;
  }
}
