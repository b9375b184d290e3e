/**
  The recent searches kept in local storage: the newest first, one per spelling up to letter case, and
  at most eight. Storage is taken to work; its content is a list of texts or nothing. `fold` is any
  conversion to lower case.
 */
module RecentSearches {
  import opened Options
  import opened Text

  const RECENT_MAX := 8

  function Take<T>(s: seq<T>, n: nat): seq<T> {
    if |s| <= n then s else s[..n]
  }

  predicate NotBlank(item: string) {
    Trim(item, JsSpace) != ""
  }

  function Filter(items: seq<string>, keep: string -> bool): seq<string> {
    if items == [] then []
    else (if keep(items[0]) then [items[0]] else []) + Filter(items[1..], keep)
  }

  function Load(stored: Option<seq<string>>): seq<string> {
    Take(Filter(stored.GetOr([]), NotBlank), RECENT_MAX)
  }

  function Others(fold: string -> string, items: seq<string>, query: string): seq<string> {
    Filter(items, item => fold(item) != fold(query))
  }

  // ---- What the list should be ----

  /** What the user did: searched for a text, or cleared the list. */
  datatype Action = Search(query: string) | Clear

  predicate Counts(query: string) {
    Utf16Length(Trim(query, JsSpace)) >= 2
  }

  /** The trimmed searches that count, since the last clearing, most recent first. */
  function History(actions: seq<Action>): seq<string> {
    if actions == [] then []
    else
      var last := actions[|actions| - 1];
      var before := History(actions[..|actions| - 1]);
      match last
      case Clear => []
      case Search(query) => if Counts(query) then [Trim(query, JsSpace)] + before else before
  }

  /** Each text once up to letter case, where and as it occurs first. */
  function Deduplicated(fold: string -> string, items: seq<string>): seq<string> {
    if items == [] then [] else [items[0]] + Others(fold, Deduplicated(fold, items[1..]), items[0])
  }

  // ---- Facts about filtering ----

  lemma {:induction false} FilterMembers(items: seq<string>, keep: string -> bool, x: string)
    ensures x in Filter(items, keep) <==> x in items && keep(x)
  {
    if items != [] {
      FilterMembers(items[1..], keep, x);
      assert items == [items[0]] + items[1..];
    }
  }

  lemma {:induction false} FilterIsNoLonger(items: seq<string>, keep: string -> bool)
    ensures |Filter(items, keep)| <= |items|
  {
    if items != [] {
      FilterIsNoLonger(items[1..], keep);
    }
  }

  lemma {:induction false} FilterAll(items: seq<string>, keep: string -> bool)
    requires forall x :: x in items ==> keep(x)
    ensures Filter(items, keep) == items
  {
    if items != [] {
      FilterAll(items[1..], keep);
    }
  }

  /** No two texts are the same up to letter case. */
  ghost predicate NoRepeats(fold: string -> string, items: seq<string>) {
    forall i, j :: 0 <= i < j < |items| ==> fold(items[i]) != fold(items[j])
  }

  lemma {:induction false} OthersOfDistinct(fold: string -> string, items: seq<string>, query: string)
    requires NoRepeats(fold, items)
    ensures NoRepeats(fold, Others(fold, items, query)) && |Others(fold, items, query)| >= |items| - 1
    ensures |Others(fold, items, query)| == |items| - 1 || Others(fold, items, query) == items
  {
    if items != [] {
      assert NoRepeats(fold, items[1..]);
      OthersOfDistinct(fold, items[1..], query);
      var rest := Others(fold, items[1..], query);
      if fold(items[0]) == fold(query) {
        FilterAll(items[1..], item => fold(item) != fold(query));
      }
      forall i | 0 <= i < |rest| ensures fold(items[0]) != fold(rest[i]) {
        FilterMembers(items[1..], item => fold(item) != fold(query), rest[i]);
        var k :| 0 <= k < |items[1..]| && items[1..][k] == rest[i];
        assert items[k + 1] == rest[i];
      }
    }
  }

  lemma {:induction false} DeduplicatedDistinct(fold: string -> string, items: seq<string>)
    ensures NoRepeats(fold, Deduplicated(fold, items))
  {
    if items != [] {
      var rest := Deduplicated(fold, items[1..]);
      DeduplicatedDistinct(fold, items[1..]);
      OthersOfDistinct(fold, rest, items[0]);
      forall i | 0 <= i < |Others(fold, rest, items[0])| ensures fold(items[0]) != fold(Others(fold, rest, items[0])[i]) {
        FilterMembers(rest, item => fold(item) != fold(items[0]), Others(fold, rest, items[0])[i]);
      }
    }
  }

  /** Deduplication keeps exactly one text of every spelling. */
  lemma {:induction false} DeduplicatedCovers(fold: string -> string, items: seq<string>, x: string)
    ensures x in Deduplicated(fold, items) ==> x in items
    ensures x in items ==> exists y :: y in Deduplicated(fold, items) && fold(y) == fold(x)
  {
    if items != [] {
      var rest := Deduplicated(fold, items[1..]);
      DeduplicatedCovers(fold, items[1..], x);
      FilterMembers(rest, item => fold(item) != fold(items[0]), x);
      assert items == [items[0]] + items[1..];
      if x in items {
        if fold(x) == fold(items[0]) {
          assert items[0] in Deduplicated(fold, items);
        } else {
          var y :| y in rest && fold(y) == fold(x);
          FilterMembers(rest, item => fold(item) != fold(items[0]), y);
          assert y in Deduplicated(fold, items);
        }
      }
    }
  }

  /** Filtering a prefix gives a prefix of the filtered list. */
  lemma {:induction false} FilterPrefix(items: seq<string>, n: nat, keep: string -> bool)
    requires n <= |items|
    ensures Filter(items[..n], keep) <= Filter(items, keep)
  {
    if n > 0 {
      assert items[..n][1..] == items[1..][..n - 1];
      FilterPrefix(items[1..], n - 1, keep);
    }
  }

  /** Cutting the list off before putting the next search in front loses nothing: at most one of the
      kept entries makes room for it. */
  lemma CutThenFilter(fold: string -> string, items: seq<string>, query: string, n: nat)
    requires NoRepeats(fold, items) && n > 0
    ensures Take([query] + Others(fold, Take(items, n), query), n) == Take([query] + Others(fold, items, query), n)
  {
    if |items| > n {
      var kept := items[..n];
      FilterPrefix(items, n, item => fold(item) != fold(query));
      assert NoRepeats(fold, kept);
      OthersOfDistinct(fold, kept, query);
      var a, b := [query] + Others(fold, kept, query), [query] + Others(fold, items, query);
      assert a <= b && |a| >= n;
    }
  }

  // ---- The list the code keeps ----

  function Recorded(fold: string -> string, stored: Option<seq<string>>, query: string): Option<seq<string>> {
    if Counts(query) then
      Some(Take([Trim(query, JsSpace)] + Others(fold, Load(stored), Trim(query, JsSpace)), RECENT_MAX))
    else stored
  }

  function Stored(fold: string -> string, actions: seq<Action>): Option<seq<string>> {
    if actions == [] then None
    else
      match actions[|actions| - 1]
      case Clear => None
      case Search(query) => Recorded(fold, Stored(fold, actions[..|actions| - 1]), query)
  }

  lemma {:induction false} HistoryNotBlank(actions: seq<Action>, x: string)
    requires x in History(actions)
    ensures NotBlank(x) && Counts(x)
  {
    var last := actions[|actions| - 1];
    if last.Search? {
      if x in History(actions[..|actions| - 1]) {
        HistoryNotBlank(actions[..|actions| - 1], x);
      }
    }
  }

  /** A stored list of at most eight texts, none of them blank, is loaded as it is. */
  lemma LoadWhole(items: seq<string>)
    requires |items| <= RECENT_MAX && forall x :: x in items ==> NotBlank(x)
    ensures Load(Some(items)) == items
  {
    FilterAll(items, NotBlank);
  }

  /** After any run of searches and clearings, the list on display is the first eight entries of the
      whole history, deduplicated up to letter case and most recent first, and what is stored is
      what is displayed. */
  lemma {:induction false} ListIsRecentHistory(fold: string -> string, actions: seq<Action>)
    ensures Load(Stored(fold, actions)) == Take(Deduplicated(fold, History(actions)), RECENT_MAX)
    ensures Stored(fold, actions).GetOr([]) == Load(Stored(fold, actions))
  {
    if actions != [] {
      var before := actions[..|actions| - 1];
      ListIsRecentHistory(fold, before);
      var last := actions[|actions| - 1];
      if last.Search? && Counts(last.query) {
        var all := Deduplicated(fold, History(before));
        var query := Trim(last.query, JsSpace);
        DeduplicatedDistinct(fold, History(before));
        CutThenFilter(fold, all, query, RECENT_MAX);
        var next := Take(Deduplicated(fold, History(actions)), RECENT_MAX);
        assert History(actions)[1..] == History(before);
        assert Stored(fold, actions) == Some(next);
        forall x | x in next ensures NotBlank(x) {
          assert x in Deduplicated(fold, History(actions));
          DeduplicatedCovers(fold, History(actions), x);
          HistoryNotBlank(actions, x);
        }
        LoadWhole(next);
      }
    }
  }

  /** At most eight texts: the query, and behind it some of the old ones, none of them the same text. */
  lemma InFront(fold: string -> string, items: seq<string>, query: string)
    ensures var r := Take([query] + Others(fold, items, query), RECENT_MAX);
      0 < |r| <= 8 && r[0] == query && forall x :: x in r[1..] ==> x in items && fold(x) != fold(query)
  {
    var others := Others(fold, items, query);
    var r := Take([query] + others, RECENT_MAX);
    forall x | x in r[1..] ensures x in items && fold(x) != fold(query) {
      assert x in others;
      FilterMembers(items, item => fold(item) != fold(query), x);
    }
  }

  lemma StoredNext(fold: string -> string, actions: seq<Action>, query: string)
    ensures Stored(fold, actions + [Search(query)]) == Recorded(fold, Stored(fold, actions), query)
  {
    assert (actions + [Search(query)])[..|actions|] == actions;
  }

  lemma HistoryNext(actions: seq<Action>, query: string)
    ensures !Counts(query) ==> History(actions + [Search(query)]) == History(actions)
  {
    assert (actions + [Search(query)])[..|actions|] == actions;
  }

  class RecentList {
    const fold: string -> string
    var stored: Option<seq<string>>
    ghost var actions: seq<Action>

    /** The store holds what these actions left there, from an empty store on. */
    ghost predicate Valid()
      reads this
    {
      stored == Stored(fold, actions)
    }

    /** What the list should show. */
    ghost function Recent(): seq<string>
      reads this
    {
      Take(Deduplicated(fold, History(actions)), RECENT_MAX)
    }

    /** `stored` may be anything; an empty store starts a history. */
    constructor (fold: string -> string, stored: Option<seq<string>>)
      ensures this.fold == fold && this.stored == stored && actions == []
      ensures stored.None? ==> Valid()
    {
      this.fold := fold;
      this.stored := stored;
      this.actions := [];
    }

    /** Of whatever is stored, at most eight texts and no blank one; of a history, its recent part. */
    method LoadRecentSearches() returns (items: seq<string>)
      ensures items == Load(stored)
      ensures |items| <= 8 && forall x :: x in items ==> Trim(x, JsSpace) != "" && x in stored.GetOr([])
      ensures |stored.GetOr([])| <= 8 ==> forall x :: x in stored.GetOr([]) && Trim(x, JsSpace) != "" ==> x in items
      ensures Valid() ==> items == Recent()
    {
      items := Take(Filter(stored.GetOr([]), NotBlank), RECENT_MAX);
      forall x ensures x in Filter(stored.GetOr([]), NotBlank) <==> x in stored.GetOr([]) && NotBlank(x) {
        FilterMembers(stored.GetOr([]), NotBlank, x);
      }
      FilterIsNoLonger(stored.GetOr([]), NotBlank);
      assert forall x :: x in items ==> x in Filter(stored.GetOr([]), NotBlank);
      ListIsRecentHistory(fold, actions);
    }

    /** Puts a query of at least two characters in front; a shorter one changes nothing. */
    method RecordRecentSearch(query: string) returns (items: seq<string>)
      modifies this
      ensures stored == Recorded(fold, old(stored), query)
      ensures Utf16Length(Trim(query, JsSpace)) < 2 ==> stored == old(stored)
      ensures Utf16Length(Trim(query, JsSpace)) >= 2 ==>
        stored == Some(items) && 0 < |items| <= 8 && items[0] == Trim(query, JsSpace) &&
        forall x :: x in items[1..] ==> x in old(stored).GetOr([]) && fold(x) != fold(items[0])
      ensures actions == old(actions) + [Search(query)]
      ensures old(Valid()) ==> Valid() && items == Recent()
    {
      hide Take, Others, Load, Trim, JsSpace, Deduplicated, History, Stored;
      var trimmed := Trim(query, JsSpace);
      items := LoadRecentSearches();
      if Utf16Length(trimmed) >= 2 {
        InFront(fold, items, trimmed);
        items := Take([trimmed] + Others(fold, items, trimmed), RECENT_MAX);
        stored := Some(items);
      }
      ghost var before := actions;
      actions := actions + [Search(query)];
      StoredNext(fold, before, query);
      ListIsRecentHistory(fold, actions);
      assert !Counts(query) ==> Recent() == Take(Deduplicated(fold, History(before)), RECENT_MAX) by { HistoryNext(before, query); }
    }

    method ClearRecentSearches()
      modifies this
      ensures actions == old(actions) + [Clear]
      ensures Valid() && Recent() == []
    {
      stored := None;
      actions := actions + [Clear];
    }
  }
}
