/**
  The data part of the migration that moves contributor credentials into the provider
  credential registry, and of the downgrade that moves them back.

  A table is a map from primary key to row. Before the migration a provider row has no
  registry columns; the migration adds them with their server defaults and the downgrade
  drops them. A dropped contributor table is an empty one. The order in which a SELECT
  without ORDER BY returns rows, the ids a serial column allots and the UUIDs drawn by the
  downgrade are parameters.
 */
module CredentialRegistry {
  import opened Options
  import Decimal

  type Instant = int

  const KNOWN_STATUSES: set<string> := {"active", "paused", "invalid", "revoked"}
  const CONTRIBUTION := "user_contribution"
  const DEFAULT_MODEL := "gemini-3.5-flash-lite"
  const DEFAULT_CONSENT := "legacy"

  datatype ProviderColumns = ProviderColumns(
    provider: string, displayLabel: string, encryptedApiKey: string, keyFingerprint: string, last4: string,
    isActive: bool, validationStatus: string, validationMessage: Option<string>, notes: Option<string>,
    model: Option<string>, createdAt: Instant, updatedAt: Instant, lastValidatedAt: Option<Instant>)

  datatype RegistryColumns = RegistryColumns(
    status: string, ownerUserId: Option<int>, source: string, ownerJobEligible: bool,
    contributorPoolEligible: bool, consentVersion: Option<string>, consentAt: Option<Instant>,
    consentRevokedAt: Option<Instant>, failureCount: int, lastUsedAt: Option<Instant>,
    lastFailureAt: Option<Instant>, revokedAt: Option<Instant>)

  datatype ProviderRow = ProviderRow(base: ProviderColumns, registry: Option<RegistryColumns>)

  datatype ContributorRow = ContributorRow(
    ownerUserId: int, providerKey: string, providerModel: string, encryptedApiKey: string,
    keyFingerprint: string, last4: string, status: string, validationStatus: string,
    validationMessage: Option<string>, consentVersion: string, failureCount: int, createdAt: Instant,
    updatedAt: Instant, lastValidatedAt: Option<Instant>, lastUsedAt: Option<Instant>,
    lastFailureAt: Option<Instant>, revokedAt: Option<Instant>)

  /** `usage` stands for the columns of a ledger row that neither direction reads or writes. */
  datatype LedgerRow = LedgerRow(credentialId: string, credentialOwnerUserId: Option<int>, usage: string)

  datatype Tables = Tables(
    provider: map<int, ProviderRow>, contributor: map<string, ContributorRow>, ledger: map<int, LedgerRow>)

  // ---- Rows ----

  const ADDED_DEFAULTS := RegistryColumns("active", None, "owner_admin", true, false, None, None, None, 0, None, None, None)

  /** The columns the migration adds, with their server defaults. */
  function WithColumns(row: ProviderRow): (r: ProviderRow)
    ensures r.registry.Some?
  {
    row.(registry := Some(ADDED_DEFAULTS))
  }

  function MarkLegacy(row: ProviderRow, ownerId: Option<int>): ProviderRow
    requires row.registry.Some?
  {
    row.(registry := Some(row.registry.value.(
      status := if row.base.isActive then "active" else "paused",
      source := "owner_legacy",
      ownerJobEligible := true,
      contributorPoolEligible := false,
      ownerUserId := ownerId,
      failureCount := 0)))
  }

  function CopyOf(row: ContributorRow): ProviderRow {
    ProviderRow(
      ProviderColumns(
        row.providerKey, "User contributor Gemini", row.encryptedApiKey, row.keyFingerprint, row.last4,
        row.status == "active", row.validationStatus, row.validationMessage, None, Some(row.providerModel),
        row.createdAt, row.updatedAt, row.lastValidatedAt),
      Some(RegistryColumns(
        if row.status in KNOWN_STATUSES then row.status else "invalid", Some(row.ownerUserId), CONTRIBUTION,
        false, row.status == "active" && row.validationStatus == "valid", Some(row.consentVersion),
        Some(row.createdAt), None, row.failureCount, row.lastUsedAt, row.lastFailureAt, row.revokedAt)))
  }

  function OrDefault(text: Option<string>, default: string): string {
    if text.None? || text.value == "" then default else text.value
  }

  predicate IsContribution(row: ProviderRow) {
    row.registry.Some? && row.registry.value.source == CONTRIBUTION
  }

  predicate Owned(row: ProviderRow) {
    IsContribution(row) && row.registry.value.ownerUserId.Some?
  }

  /** The contributor row the downgrade inserts, for a registry row whose owner is not NULL. */
  function RestoreOf(row: ProviderRow): ContributorRow
    requires Owned(row)
  {
    var r := row.registry.value;
    ContributorRow(
      r.ownerUserId.value, row.base.provider, OrDefault(row.base.model, DEFAULT_MODEL),
      row.base.encryptedApiKey, row.base.keyFingerprint, row.base.last4, r.status, row.base.validationStatus,
      row.base.validationMessage, OrDefault(r.consentVersion, DEFAULT_CONSENT), r.failureCount,
      row.base.createdAt, row.base.updatedAt, row.base.lastValidatedAt, r.lastUsedAt, r.lastFailureAt, r.revokedAt)
  }

  predicate KeepsItsColumns(row: ContributorRow) {
    (row.status == "active" || row.status == "paused" || row.status == "invalid" || row.status == "revoked") && row.providerModel != "" && row.consentVersion != ""
  }

  lemma CopyIsOwned(row: ContributorRow)
    ensures Owned(CopyOf(row))
    ensures CopyOf(row).registry.value.ownerUserId == Some(row.ownerUserId) && CopyOf(row).base.provider == row.providerKey
  {
  }

  lemma LegacyIsKept(row: ProviderRow, ownerId: Option<int>)
    ensures var legacy := MarkLegacy(WithColumns(row), ownerId);
      legacy.registry.Some? && !IsContribution(legacy) && (row.registry.None? ==> legacy.(registry := None) == row)
  {
  }

  /** Copying a contributor row and restoring the copy gives the row back exactly when its status is
      one of the four known ones and its model and consent version are not empty. */
  lemma RowRoundTrip(row: ContributorRow)
    ensures RestoreOf(CopyOf(row)) == row <==> KeepsItsColumns(row)
  {
    if row.status !in KNOWN_STATUSES {
      assert RestoreOf(CopyOf(row)).status == "invalid";
    }
  }

  /** A status that the code does not know comes back as `invalid`, an empty model and an empty consent
      version as the defaults. */
  lemma UnknownColumnsAreReplaced(row: ContributorRow)
    ensures var odd := row.(status := "expired", providerModel := "", consentVersion := "");
      RestoreOf(CopyOf(odd)) == odd.(status := "invalid", providerModel := "gemini-3.5-flash-lite", consentVersion := "legacy")
  {
  }

  // ---- What the columns of the upgraded registry mean ----

  /** A registry row says of a contributor's credential what the contributor row said of it. Jobs of the
      owner never use it, the pool does exactly while it is active and valid, and consent stands from the
      row's creation. */
  predicate SaysOfContributor(p: ProviderRow, c: ContributorRow) {
    && p.base.provider == c.providerKey && p.base.model == Some(c.providerModel)
    && p.base.encryptedApiKey == c.encryptedApiKey && p.base.keyFingerprint == c.keyFingerprint && p.base.last4 == c.last4
    && p.base.displayLabel == "User contributor Gemini" && p.base.notes.None?
    && p.base.validationStatus == c.validationStatus && p.base.validationMessage == c.validationMessage
    && p.base.createdAt == c.createdAt && p.base.updatedAt == c.updatedAt && p.base.lastValidatedAt == c.lastValidatedAt
    && p.registry.Some?
    && var r := p.registry.value;
       && r.source == "user_contribution" && r.ownerUserId == Some(c.ownerUserId)
       && (p.base.isActive <==> c.status == "active")
       && (r.contributorPoolEligible <==> c.status == "active" && c.validationStatus == "valid")
       && !r.ownerJobEligible
       && (r.status == c.status <==> c.status == "active" || c.status == "paused" || c.status == "invalid" || c.status == "revoked")
       && (r.status != c.status ==> r.status == "invalid")
       && r.consentVersion == Some(c.consentVersion) && r.consentAt == Some(c.createdAt) && r.consentRevokedAt.None?
       && r.failureCount == c.failureCount && r.lastUsedAt == c.lastUsedAt
       && r.lastFailureAt == c.lastFailureAt && r.revokedAt == c.revokedAt
  }

  /** A registry row that was there before belongs to the owner: jobs of the owner use it, the pool never
      does, no consent and no failure is on record, and its other columns are as they were. */
  predicate SaysOfOwner(p: ProviderRow, before: ProviderRow, ownerId: Option<int>) {
    && p.base == before.base && p.registry.Some?
    && var r := p.registry.value;
       && r.source == "owner_legacy" && r.ownerUserId == ownerId
       && (r.status == "active" <==> before.base.isActive) && (r.status == "paused" <==> !before.base.isActive)
       && r.ownerJobEligible && !r.contributorPoolEligible && r.failureCount == 0
       && r.consentVersion.None? && r.consentAt.None? && r.consentRevokedAt.None?
       && r.lastUsedAt.None? && r.lastFailureAt.None? && r.revokedAt.None?
  }

  /** The rows under the new keys say of the contributors, in the same order, what they said before. */
  ghost predicate HoldsContributors(
      provider: map<int, ProviderRow>, contributor: map<string, ContributorRow>, order: seq<string>, ids: seq<int>)
    requires |order| == |ids|
  {
    forall i :: 0 <= i < |ids| ==>
      order[i] in contributor && ids[i] in provider && SaysOfContributor(provider[ids[i]], contributor[order[i]])
  }

  ghost predicate SameOutside(before: map<int, ProviderRow>, after: map<int, ProviderRow>, ids: seq<int>) {
    (forall id :: id in before && id !in ids ==> id in after && after[id] == before[id]) &&
    (forall id :: id in after && id !in ids ==> id in before)
  }

  /** A restored contributor row says what the registry row said, whatever happened to it since the
      upgrade; a model or a consent version that is missing or empty gets its default. */
  predicate SaysOfRegistry(c: ContributorRow, p: ProviderRow) {
    && p.registry.Some?
    && var r := p.registry.value;
       && r.ownerUserId == Some(c.ownerUserId) && c.providerKey == p.base.provider
       && (if p.base.model in {None, Some("")} then c.providerModel == "gemini-3.5-flash-lite" else p.base.model == Some(c.providerModel))
       && (if r.consentVersion in {None, Some("")} then c.consentVersion == "legacy" else r.consentVersion == Some(c.consentVersion))
       && c.encryptedApiKey == p.base.encryptedApiKey && c.keyFingerprint == p.base.keyFingerprint && c.last4 == p.base.last4
       && c.status == r.status && c.validationStatus == p.base.validationStatus && c.validationMessage == p.base.validationMessage
       && c.failureCount == r.failureCount && c.createdAt == p.base.createdAt && c.updatedAt == p.base.updatedAt
       && c.lastValidatedAt == p.base.lastValidatedAt && c.lastUsedAt == r.lastUsedAt
       && c.lastFailureAt == r.lastFailureAt && c.revokedAt == r.revokedAt
  }

  lemma RestoreSays(p: ProviderRow)
    requires Owned(p)
    ensures SaysOfRegistry(RestoreOf(p), p)
  {
  }

  lemma CopySays(c: ContributorRow)
    ensures SaysOfContributor(CopyOf(c), c)
  {
  }

  lemma LegacySays(row: ProviderRow, ownerId: Option<int>)
    ensures SaysOfOwner(MarkLegacy(WithColumns(row), ownerId), row, ownerId)
  {
  }

  // ---- Keys ----

  ghost predicate Distinct<T>(s: seq<T>) {
    forall i, j :: 0 <= i < j < |s| ==> s[i] != s[j]
  }

  /** `order` lists the members of `keys`, each once: a SELECT without ORDER BY. */
  ghost predicate Enumerates<T>(order: seq<T>, keys: set<T>) {
    Distinct(order) && (set k | k in order) == keys
  }

  lemma EnumeratesMembers<T>(order: seq<T>, keys: set<T>)
    requires Enumerates(order, keys)
    ensures forall i {:trigger order[i]} :: 0 <= i < |order| ==> order[i] in keys
    ensures forall k :: k in keys <==> k in order
  {
    assert forall i {:trigger order[i]} :: 0 <= i < |order| ==> order[i] in (set k | k in order);
    forall k | k in keys ensures k in order {
      assert k in (set k | k in order);
    }
    forall k | k in order ensures k in keys {
      assert k in (set k | k in order);
    }
  }

  ghost function IndexOf<T>(s: seq<T>, x: T): (i: nat)
    requires x in s
    ensures i < |s| && s[i] == x
  {
    var i :| 0 <= i < |s| && s[i] == x;
    i
  }

  function IdText(id: int): string {
    Decimal.OfInt(id)
  }

  function IdTexts(ids: seq<int>): (texts: seq<string>)
    ensures |texts| == |ids| && forall i :: 0 <= i < |ids| ==> texts[i] == IdText(ids[i])
  {
    seq(|ids|, i requires 0 <= i < |ids| => IdText(ids[i]))
  }

  ghost predicate Int32(ids: seq<int>) {
    forall i :: 0 <= i < |ids| ==> -0x8000_0000 <= ids[i] < 0x8000_0000
  }

  lemma IdTextsDistinct(ids: seq<int>)
    requires Distinct(ids)
    ensures Distinct(IdTexts(ids))
  {
    forall i, j | 0 <= i < j < |ids| ensures IdTexts(ids)[i] != IdTexts(ids)[j] {
      if IdText(ids[i]) == IdText(ids[j]) {
        Decimal.OfIntInjective(ids[i], ids[j]);
      }
    }
  }

  // ---- Ledger references ----

  /** What a credential id becomes when one UPDATE per pair runs, first pair first. */
  function Chain(id: string, from: seq<string>, to: seq<string>): string
    requires |from| == |to|
  {
    if from == [] then id
    else
      var last := |from| - 1;
      var before := Chain(id, from[..last], to[..last]);
      if before == from[last] then to[last] else before
  }

  /** What it should become: all pairs applied at once. */
  ghost function Rename(id: string, from: seq<string>, to: seq<string>): string
    requires |from| == |to|
  {
    if id in from then to[IndexOf(from, id)] else id
  }

  /** A later UPDATE rewrites again what an earlier one wrote for `id`. */
  ghost predicate RewrittenTwice(id: string, from: seq<string>, to: seq<string>)
    requires |from| == |to|
  {
    exists i, j :: 0 <= i < j < |from| && from[i] == id && from[j] == to[i]
  }

  /** With one more pair, an id is rewritten twice if it was before or if the pair starts at its target. */
  lemma TwiceNext(id: string, from: seq<string>, to: seq<string>, i: nat)
    requires |from| == |to| && Distinct(from) && i < |from| - 1 && from[i] == id
    ensures var last := |from| - 1;
      RewrittenTwice(id, from, to) <==> RewrittenTwice(id, from[..last], to[..last]) || from[last] == to[i]
  {
    var last := |from| - 1;
    var from', to' := from[..last], to[..last];
    if RewrittenTwice(id, from, to) {
      var a, b :| 0 <= a < b < |from| && from[a] == id && from[b] == to[a];
      assert a == i;
      assert b < last ==> from'[a] == id && from'[b] == to'[a];
    }
    if RewrittenTwice(id, from', to') {
      var a, b :| 0 <= a < b < |from'| && from'[a] == id && from'[b] == to'[a];
      assert from[a] == id && from[b] == to[a];
    }
    assert from[last] == to[i] ==> from[i] == id && from[last] == to[i];
  }

  /** Where the chain of UPDATEs takes an id: nowhere if no pair starts at it, else to the target of
      its own pair, or of a strictly later one if it is rewritten twice. */
  lemma {:induction false} ChainTarget(id: string, from: seq<string>, to: seq<string>) returns (m: nat)
    requires |from| == |to| && Distinct(from) && Distinct(to)
    ensures id !in from ==> Chain(id, from, to) == id
    ensures id in from ==> IndexOf(from, id) <= m < |to| && Chain(id, from, to) == to[m]
    ensures id in from ==> (m == IndexOf(from, id) <==> !RewrittenTwice(id, from, to))
  {
    if from == [] {
      m := 0;
    } else {
      var last := |from| - 1;
      var from', to' := from[..last], to[..last];
      m := ChainTarget(id, from', to');
      if id in from' {
        var i := IndexOf(from, id);
        assert from'[i] == id;
        assert IndexOf(from', id) == i;
        TwiceNext(id, from, to, i);
        if to'[m] == from[last] {
          m := last;
        }
      } else if id == from[last] {
        m := last;
        assert IndexOf(from, id) == last;
      } else {
        assert id !in from;
      }
    }
  }

  /** One UPDATE after another does what renaming all ids at once would do exactly for the ids that
      no later UPDATE rewrites a second time. */
  lemma {:induction false} ChainIsRename(id: string, from: seq<string>, to: seq<string>)
    requires |from| == |to| && Distinct(from) && Distinct(to)
    ensures Chain(id, from, to) == Rename(id, from, to) <==> !RewrittenTwice(id, from, to)
  {
    var m := ChainTarget(id, from, to);
  }

  lemma ChainStep(id: string, from: seq<string>, to: seq<string>, i: nat)
    requires i < |from| == |to|
    ensures Chain(id, from[..i + 1], to[..i + 1]) ==
            var before := Chain(id, from[..i], to[..i]); if before == from[i] then to[i] else before
  {
    assert from[..i + 1][..i] == from[..i] && to[..i + 1][..i] == to[..i];
  }

  function Relabelled(ledger: map<int, LedgerRow>, from: seq<string>, to: seq<string>): map<int, LedgerRow>
    requires |from| == |to|
  {
    map k | k in ledger :: ledger[k].(credentialId := Chain(ledger[k].credentialId, from, to))
  }

  /** `UPDATE contributor_usage_ledger SET credential_id = to WHERE credential_id = from`. */
  function Updated(ledger: map<int, LedgerRow>, from: string, to: string): map<int, LedgerRow> {
    map k | k in ledger :: if ledger[k].credentialId == from then ledger[k].(credentialId := to) else ledger[k]
  }

  lemma RelabelledByNothing(ledger: map<int, LedgerRow>, from: seq<string>, to: seq<string>)
    requires from == to == []
    ensures Relabelled(ledger, from, to) == ledger
  {
    forall k | k in ledger ensures Relabelled(ledger, from, to)[k] == ledger[k] {
      assert Chain(ledger[k].credentialId, from, to) == ledger[k].credentialId;
    }
  }

  lemma RelabelledStep(ledger: map<int, LedgerRow>, from: seq<string>, to: seq<string>, i: nat)
    requires i < |from| == |to|
    ensures Relabelled(ledger, from[..i + 1], to[..i + 1]) == Updated(Relabelled(ledger, from[..i], to[..i]), from[i], to[i])
  {
    forall k | k in ledger {
      ChainStep(ledger[k].credentialId, from, to, i);
    }
  }

  // ---- Tables ----

  ghost predicate UniquePairs(contributor: map<string, ContributorRow>) {
    forall a, b :: a in contributor && b in contributor && a != b ==>
      contributor[a].ownerUserId != contributor[b].ownerUserId || contributor[a].providerKey != contributor[b].providerKey
  }

  predicate UniqueProviders(provider: map<int, ProviderRow>) {
    forall a, b :: a in provider && b in provider && a != b ==> provider[a].base.provider != provider[b].base.provider
  }

  predicate LedgerOwnersKnown(ledger: map<int, LedgerRow>) {
    forall k :: k in ledger ==> ledger[k].credentialOwnerUserId.Some?
  }

  lemma RelabelledOwners(ledger: map<int, LedgerRow>, from: seq<string>, to: seq<string>)
    requires |from| == |to|
    ensures LedgerOwnersKnown(Relabelled(ledger, from, to)) <==> LedgerOwnersKnown(ledger)
  {
    var after := Relabelled(ledger, from, to);
    assert after.Keys == ledger.Keys;
    assert forall k :: k in ledger ==> after[k].credentialOwnerUserId == ledger[k].credentialOwnerUserId;
  }

  /** The schema and the constraints of the revision before the migration. */
  ghost predicate Before(t: Tables) {
    && (forall id :: id in t.provider ==> t.provider[id].registry.None?)
    && UniqueProviders(t.provider) && UniquePairs(t.contributor) && LedgerOwnersKnown(t.ledger)
  }

  /** `order` is the order the contributor rows are read in, `ids` the new keys they are given. */
  ghost predicate Allotted(t: Tables, order: seq<string>, ids: seq<int>) {
    && Enumerates(order, t.contributor.Keys)
    && |ids| == |order| && Distinct(ids) && Int32(ids)
    && forall i :: 0 <= i < |ids| ==> ids[i] !in t.provider
  }

  function Marked(provider: map<int, ProviderRow>, ownerId: Option<int>): map<int, ProviderRow> {
    map id | id in provider :: MarkLegacy(WithColumns(provider[id]), ownerId)
  }

  /** The rows inserted one after another under the given keys. */
  function Inserted<K, V>(keys: seq<K>, rows: seq<V>): (table: map<K, V>)
    requires |keys| == |rows|
  {
    if keys == [] then map[] else Inserted(keys[..|keys| - 1], rows[..|rows| - 1])[keys[|keys| - 1] := rows[|rows| - 1]]
  }

  lemma {:induction false} InsertedRows<K, V>(keys: seq<K>, rows: seq<V>)
    requires |keys| == |rows| && Distinct(keys)
    ensures Inserted(keys, rows).Keys == set k | k in keys
    ensures forall i :: 0 <= i < |keys| ==> keys[i] in Inserted(keys, rows) && Inserted(keys, rows)[keys[i]] == rows[i]
  {
    if keys != [] {
      InsertedRows(keys[..|keys| - 1], rows[..|rows| - 1]);
      assert keys == keys[..|keys| - 1] + [keys[|keys| - 1]];
    }
  }

  lemma InsertedNext<K, V>(keys: seq<K>, rows: seq<V>, i: nat)
    requires i < |keys| && |rows| == i + 1
    ensures Inserted(keys[..i + 1], rows) == Inserted(keys[..i], rows[..i])[keys[i] := rows[i]]
  {
    assert keys[..i + 1][..i] == keys[..i];
  }

  function CopyRows(contributor: map<string, ContributorRow>, order: seq<string>): (rows: seq<ProviderRow>)
    requires forall c :: c in order ==> c in contributor
    ensures |rows| == |order| && forall i :: 0 <= i < |order| ==> rows[i] == CopyOf(contributor[order[i]])
  {
    seq(|order|, i requires 0 <= i < |order| => CopyOf(contributor[order[i]]))
  }

  /** The registry when the first n contributor rows have been copied. */
  function CopiedUpTo(
      provider: map<int, ProviderRow>, contributor: map<string, ContributorRow>, order: seq<string>, ids: seq<int>, n: nat): map<int, ProviderRow>
    requires n <= |order| == |ids| && forall c :: c in order ==> c in contributor
  {
    provider + Inserted(ids[..n], CopyRows(contributor, order[..n]))
  }

  lemma CopiedEnds(provider: map<int, ProviderRow>, contributor: map<string, ContributorRow>, order: seq<string>, ids: seq<int>)
    requires |order| == |ids| && forall c :: c in order ==> c in contributor
    ensures CopiedUpTo(provider, contributor, order, ids, 0) == provider
    ensures CopiedUpTo(provider, contributor, order, ids, |order|) == provider + Inserted(ids, CopyRows(contributor, order))
  {
    hide Inserted, CopyRows;
    InsertedNothing(ids[..0], CopyRows(contributor, order[..0]));
    assert provider + map[] == provider;
    assert order[..|order|] == order && ids[..|order|] == ids;
  }

  lemma InsertedNothing<K, V>(keys: seq<K>, rows: seq<V>)
    requires |keys| == |rows| == 0
    ensures Inserted(keys, rows) == map[]
  {
  }

  lemma CopiedStep(
      provider: map<int, ProviderRow>, contributor: map<string, ContributorRow>, order: seq<string>, ids: seq<int>, i: nat)
    requires i < |order| == |ids| && forall c :: c in order ==> c in contributor
    ensures order[i] in contributor
    ensures CopiedUpTo(provider, contributor, order, ids, i + 1) ==
            CopiedUpTo(provider, contributor, order, ids, i)[ids[i] := CopyOf(contributor[order[i]])]
  {
    hide Inserted, CopyOf;
    var rows := CopyRows(contributor, order[..i + 1]);
    InsertedNext(ids, rows, i);
    assert rows[..i] == CopyRows(contributor, order[..i]);
    PlusUpdate(provider, Inserted(ids[..i], rows[..i]), ids[i], rows[i]);
  }

  lemma PlusUpdate<K, V>(a: map<K, V>, b: map<K, V>, k: K, v: V)
    ensures a + b[k := v] == (a + b)[k := v]
  {
  }

  function Upgraded(t: Tables, ownerId: Option<int>, order: seq<string>, ids: seq<int>): Tables
    requires |order| == |ids| && forall c :: c in order ==> c in t.contributor
  {
    Tables(
      Marked(t.provider, ownerId) + Inserted(ids, CopyRows(t.contributor, order)),
      map[],
      Relabelled(t.ledger, order, IdTexts(ids)))
  }

  function Contributions(provider: map<int, ProviderRow>): set<int> {
    set id | id in provider && IsContribution(provider[id])
  }

  /** The revision the downgrade starts from: registry columns present, contributor table gone. */
  ghost predicate After(t: Tables) {
    t.contributor == map[] && forall id :: id in t.provider ==> t.provider[id].registry.Some?
  }

  /** `back` is the order the contributed rows are read in, `uuids` the fresh hexadecimal UUIDs. */
  ghost predicate Drawn(t: Tables, back: seq<int>, uuids: seq<string>) {
    && Enumerates(back, Contributions(t.provider)) && Int32(back)
    && |uuids| == |back| && Distinct(uuids)
    && forall i :: 0 <= i < |uuids| ==> |uuids[i]| == 32
  }

  predicate SamePair(a: ProviderRow, b: ProviderRow) {
    a.registry.Some? && b.registry.Some? && a.registry.value.ownerUserId == b.registry.value.ownerUserId &&
    a.base.provider == b.base.provider
  }

  /** Inserting the row would repeat the (owner, provider) pair of an existing contributor row. */
  predicate Clashes(present: ContributorRow, row: ProviderRow)
    requires Owned(row)
  {
    present.ownerUserId == row.registry.value.ownerUserId.value && present.providerKey == row.base.provider
  }

  function Kept(provider: map<int, ProviderRow>): map<int, ProviderRow> {
    map id | id in provider && !IsContribution(provider[id]) :: provider[id].(registry := None)
  }

  /** The unique constraint speaks of the table after the insert, the clash of the rows before it. */
  lemma ClashingPairs(contributor: map<string, ContributorRow>, u: string, row: ProviderRow)
    requires UniquePairs(contributor) && u !in contributor && Owned(row)
    ensures UniquePairs(contributor[u := RestoreOf(row)]) <==> forall v :: v in contributor ==> !Clashes(contributor[v], row)
  {
    var table := contributor[u := RestoreOf(row)];
    forall v | v in contributor && Clashes(contributor[v], row) ensures !UniquePairs(table) {
      assert v in table && u in table && v != u;
    }
  }

  /** The contributor table accepts every contributed row: owner not NULL, (owner, provider) unique. */
  ghost predicate Restorable(provider: map<int, ProviderRow>) {
    && (forall id :: id in Contributions(provider) ==> Owned(provider[id]))
    && (forall a, b :: a in Contributions(provider) && b in Contributions(provider) && a != b ==>
          !SamePair(provider[a], provider[b]))
  }

  /** The contributor table accepts the rows with these ids, inserted in any order. */
  ghost predicate Accepted(provider: map<int, ProviderRow>, back: seq<int>) {
    && (forall i {:trigger back[i]} :: 0 <= i < |back| ==> back[i] in provider && Owned(provider[back[i]]))
    && (forall i, j :: 0 <= i < j < |back| ==> !SamePair(provider[back[i]], provider[back[j]]))
  }

  lemma AcceptedIsRestorable(provider: map<int, ProviderRow>, back: seq<int>)
    requires Enumerates(back, Contributions(provider))
    ensures Accepted(provider, back) <==> Restorable(provider)
  {
    EnumeratesMembers(back, Contributions(provider));
    if Accepted(provider, back) {
      forall id | id in Contributions(provider) ensures Owned(provider[id]) {
        assert id == back[IndexOf(back, id)];
      }
      forall a, b | a in Contributions(provider) && b in Contributions(provider) && a != b
        ensures !SamePair(provider[a], provider[b])
      {
        var i, j := IndexOf(back, a), IndexOf(back, b);
        assert SamePair(provider[back[i]], provider[back[j]]) <==> SamePair(provider[back[j]], provider[back[i]]);
      }
    }
    if Restorable(provider) {
      forall i | 0 <= i < |back| ensures back[i] in provider && Owned(provider[back[i]]) {
        var id := back[i];
        assert id in Contributions(provider);
        assert Owned(provider[id]);
      }
      forall i, j | 0 <= i < j < |back| ensures !SamePair(provider[back[i]], provider[back[j]]) {
        var a, b := back[i], back[j];
        assert a in Contributions(provider) && b in Contributions(provider) && a != b;
      }
    }
  }

  /** The next row is accepted exactly when its owner is not NULL and no row inserted so far clashes. */
  lemma AcceptedStep(provider: map<int, ProviderRow>, back: seq<int>, uuids: seq<string>, i: nat)
    requires i < |back| == |uuids| && Distinct(uuids) && back[i] in provider && Accepted(provider, back[..i])
    ensures var table := Inserted(uuids[..i], RestoreRows(provider, back[..i]));
      Accepted(provider, back[..i + 1]) <==>
      Owned(provider[back[i]]) && forall u :: u in table ==> !Clashes(table[u], provider[back[i]])
  {
    var table := Inserted(uuids[..i], RestoreRows(provider, back[..i]));
    var row := provider[back[i]];
    assert back[..i + 1] == back[..i] + [back[i]];
    if Owned(row) {
      ClashByIndex(provider, back[..i], uuids[..i], row);
      hide Inserted, RestoreRows, Clashes, SamePair, Owned;
    }
  }

  /** The inserted rows clash with a further row just where their registry rows share its pair. */
  lemma ClashByIndex(provider: map<int, ProviderRow>, back: seq<int>, uuids: seq<string>, row: ProviderRow)
    requires |back| == |uuids| && Distinct(uuids) && Accepted(provider, back) && Owned(row)
    ensures (forall u :: u in Inserted(uuids, RestoreRows(provider, back)) ==> !Clashes(Inserted(uuids, RestoreRows(provider, back))[u], row)) <==>
            (forall j :: 0 <= j < |back| ==> !SamePair(provider[back[j]], row))
  {
    var rows := RestoreRows(provider, back);
    var table := Inserted(uuids, rows);
    InsertedRows(uuids, rows);
    forall j | 0 <= j < |back|
      ensures uuids[j] in table && (SamePair(provider[back[j]], row) <==> Clashes(table[uuids[j]], row))
    {
      assert Owned(provider[back[j]]);
    }
    hide Inserted, Clashes, SamePair, Owned, Distinct;
    forall u | u in table ensures exists j :: 0 <= j < |back| && uuids[j] == u {
      assert uuids[IndexOf(uuids, u)] == u;
    }
  }

  lemma AcceptedPrefix(provider: map<int, ProviderRow>, back: seq<int>, i: nat)
    requires i <= |back| && Accepted(provider, back)
    ensures Accepted(provider, back[..i])
  {
    forall j | 0 <= j < i ensures back[..i][j] in provider && Owned(provider[back[..i][j]]) {
      assert back[..i][j] == back[j];
    }
  }

  lemma RestoredStep(provider: map<int, ProviderRow>, back: seq<int>, uuids: seq<string>, i: nat)
    requires i < |back| == |uuids| && Accepted(provider, back[..i]) && Accepted(provider, back[..i + 1])
    ensures back[i] in provider && Owned(provider[back[i]])
    ensures Inserted(uuids[..i + 1], RestoreRows(provider, back[..i + 1])) ==
            Inserted(uuids[..i], RestoreRows(provider, back[..i]))[uuids[i] := RestoreOf(provider[back[i]])]
  {
    assert back[..i + 1][i] == back[i];
    var rows := RestoreRows(provider, back[..i + 1]);
    InsertedNext(uuids, rows, i);
    hide Inserted, RestoreOf;
    forall j | 0 <= j < i ensures rows[j] == RestoreRows(provider, back[..i])[j] {
      assert back[..i + 1][j] == back[..i][j];
    }
    assert rows[..i] == RestoreRows(provider, back[..i]);
  }

  /** No constraint of the restored schema is violated. */
  ghost predicate CanRestore(t: Tables) {
    Restorable(t.provider) && UniqueProviders(Kept(t.provider)) && LedgerOwnersKnown(t.ledger)
  }

  function RestoreRows(provider: map<int, ProviderRow>, back: seq<int>): (rows: seq<ContributorRow>)
    requires forall i {:trigger back[i]} :: 0 <= i < |back| ==> back[i] in provider && Owned(provider[back[i]])
    ensures |rows| == |back| && forall i :: 0 <= i < |back| ==> rows[i] == RestoreOf(provider[back[i]])
  {
    seq(|back|, i requires 0 <= i < |back| => RestoreOf(provider[back[i]]))
  }

  ghost function Downgraded(t: Tables, back: seq<int>, uuids: seq<string>): Tables
    requires Drawn(t, back, uuids) && CanRestore(t)
  {
    AcceptedIsRestorable(t.provider, back);
    Tables(
      Kept(t.provider),
      Inserted(uuids, RestoreRows(t.provider, back)),
      Relabelled(t.ledger, IdTexts(back), uuids))
  }

  // ---- What the migration promises ----

  lemma UpgradedCopies(t: Tables, ownerId: Option<int>, order: seq<string>, ids: seq<int>)
    requires Before(t) && Allotted(t, order, ids)
    ensures forall c :: c in order <==> c in t.contributor
    ensures Copied(t.contributor, order, ids, Upgraded(t, ownerId, order, ids).provider)
  {
    EnumeratesMembers(order, t.contributor.Keys);
    InsertedRows(ids, CopyRows(t.contributor, order));
  }

  lemma UpgradedLegacy(t: Tables, ownerId: Option<int>, order: seq<string>, ids: seq<int>)
    requires Before(t) && Allotted(t, order, ids)
    ensures forall c :: c in order <==> c in t.contributor
    ensures var provider := Upgraded(t, ownerId, order, ids).provider;
      && provider.Keys == t.provider.Keys + (set id | id in ids)
      && forall id :: id in t.provider ==> id !in ids && provider[id] == MarkLegacy(WithColumns(t.provider[id]), ownerId)
  {
    EnumeratesMembers(order, t.contributor.Keys);
    InsertedBeside(Marked(t.provider, ownerId), ids, CopyRows(t.contributor, order));
    hide Inserted, MarkLegacy, WithColumns, Before, CopyRows, Distinct;
  }

  lemma InsertedBeside<V>(table: map<int, V>, keys: seq<int>, rows: seq<V>)
    requires |keys| == |rows| && Distinct(keys) && forall i :: 0 <= i < |keys| ==> keys[i] !in table
    ensures var all := table + Inserted(keys, rows);
      && all.Keys == table.Keys + (set k | k in keys)
      && forall k :: k in table ==> k !in keys && all[k] == table[k]
  {
    InsertedRows(keys, rows);
  }

  lemma UpgradedHasNoContributor(t: Tables, ownerId: Option<int>, order: seq<string>, ids: seq<int>)
    requires |order| == |ids| && forall c :: c in order ==> c in t.contributor
    ensures Upgraded(t, ownerId, order, ids).contributor == map[]
  {
  }

  lemma UpgradedSchema(t: Tables, ownerId: Option<int>, order: seq<string>, ids: seq<int>)
    requires Before(t) && Allotted(t, order, ids)
    ensures forall c :: c in order <==> c in t.contributor
    ensures var up := Upgraded(t, ownerId, order, ids);
      After(up) && Contributions(up.provider) == (set id | id in ids)
  {
    hide Inserted, CopyOf, MarkLegacy, WithColumns, Enumerates, Upgraded, UniqueProviders, UniquePairs, LedgerOwnersKnown;
    UpgradedCopies(t, ownerId, order, ids);
    UpgradedLegacy(t, ownerId, order, ids);
    UpgradedHasNoContributor(t, ownerId, order, ids);
    var provider := Upgraded(t, ownerId, order, ids).provider;
    forall id | id in provider ensures provider[id].registry.Some? && (IsContribution(provider[id]) <==> id in ids) {
      if id in ids {
        var i := IndexOf(ids, id);
        CopyIsOwned(t.contributor[order[i]]);
      } else {
        LegacyIsKept(t.provider[id], ownerId);
      }
    }
  }

  /** Every column of every row of the upgraded registry: one row under the new key of each contributor,
      one under each old key, and no other. */
  lemma UpgradedColumns(t: Tables, ownerId: Option<int>, order: seq<string>, ids: seq<int>)
    requires Before(t) && Allotted(t, order, ids)
    ensures forall c :: c in order <==> c in t.contributor
    ensures var provider := Upgraded(t, ownerId, order, ids).provider;
      && provider.Keys == t.provider.Keys + (set id | id in ids)
      && HoldsContributors(provider, t.contributor, order, ids)
      && (forall id :: id in t.provider ==> id in provider && SaysOfOwner(provider[id], t.provider[id], ownerId))
  {
    hide Inserted, CopyOf, MarkLegacy, WithColumns, Upgraded, UniqueProviders, UniquePairs, LedgerOwnersKnown, SaysOfContributor, SaysOfOwner;
    UpgradedCopies(t, ownerId, order, ids);
    UpgradedLegacy(t, ownerId, order, ids);
    forall i | 0 <= i < |ids| ensures SaysOfContributor(CopyOf(t.contributor[order[i]]), t.contributor[order[i]]) {
      CopySays(t.contributor[order[i]]);
    }
    forall id | id in t.provider ensures SaysOfOwner(MarkLegacy(WithColumns(t.provider[id]), ownerId), t.provider[id], ownerId) {
      LegacySays(t.provider[id], ownerId);
    }
  }

  /** The ledger row refers after the copy to what it referred to before: to the copy of the same
      contributor row, or to the same id if it named no contributor row. */
  ghost predicate FollowsItsCredential(t: Tables, up: Tables, k: int)
    requires k in t.ledger && k in up.ledger
  {
    var c := t.ledger[k].credentialId;
    if c in t.contributor then
      exists id :: id in up.provider && up.provider[id] == CopyOf(t.contributor[c]) && up.ledger[k].credentialId == IdText(id)
    else
      up.ledger[k].credentialId == c
  }

  /** The copy loop rewrites the ledger one id at a time; a row keeps its meaning exactly when no
      contributor row read later has as its id the text of the new key this row was just given. */
  lemma CopyKeepsReferences(t: Tables, ownerId: Option<int>, order: seq<string>, ids: seq<int>, k: int)
    requires Before(t) && Allotted(t, order, ids) && k in t.ledger
    ensures forall c :: c in order <==> c in t.contributor
    ensures FollowsItsCredential(t, Upgraded(t, ownerId, order, ids), k) <==>
            !RewrittenTwice(t.ledger[k].credentialId, order, IdTexts(ids))
  {
    var up := Upgraded(t, ownerId, order, ids);
    var c := t.ledger[k].credentialId;
    UpgradedCopies(t, ownerId, order, ids);
    IdTextsDistinct(ids);
    var m := ChainTarget(c, order, IdTexts(ids));
    if c in order {
      var i := IndexOf(order, c);
      assert up.ledger[k].credentialId == IdText(ids[m]);
      if m == i {
        assert up.provider[ids[i]] == CopyOf(t.contributor[c]);
      } else if FollowsItsCredential(t, up, k) {
        var id :| id in up.provider && up.provider[id] == CopyOf(t.contributor[c]) && up.ledger[k].credentialId == IdText(id);
        Decimal.OfIntInjective(id, ids[m]);
        OneCopyPerPair(t.contributor, c, order[m]);
      }
    }
  }

  lemma OneCopyPerPair(contributor: map<string, ContributorRow>, a: string, b: string)
    requires UniquePairs(contributor) && a in contributor && b in contributor
    requires CopyOf(contributor[a]) == CopyOf(contributor[b])
    ensures a == b
  {
    assert CopyOf(contributor[a]).registry.value.ownerUserId == CopyOf(contributor[b]).registry.value.ownerUserId;
  }

  /** The UUID the downgrade gives to what was contributor `c` before the upgrade. */
  ghost function NewName(c: string, order: seq<string>, ids: seq<int>, back: seq<int>, uuids: seq<string>): string
    requires |order| == |ids| && |back| == |uuids| && c in order && ids[IndexOf(order, c)] in back
  {
    uuids[IndexOf(back, ids[IndexOf(order, c)])]
  }

  /** Both passes over one ledger reference amount to the renaming exactly when the upgrade does not
      rewrite it twice and it was not, before the upgrade, a stray text equal to a new key. */
  lemma ReferenceRoundTrip(c: string, order: seq<string>, ids: seq<int>, back: seq<int>, uuids: seq<string>)
    requires |order| == |ids| && Distinct(order) && Distinct(ids) && Int32(ids)
    requires Enumerates(back, set id | id in ids) && Int32(back)
    requires |uuids| == |back| && Distinct(uuids) && forall i :: 0 <= i < |uuids| ==> |uuids[i]| == 32
    ensures forall d :: d in order ==> ids[IndexOf(order, d)] in back
    ensures Chain(Chain(c, order, IdTexts(ids)), IdTexts(back), uuids) ==
              (if c in order then NewName(c, order, ids, back, uuids) else c) <==>
            !RewrittenTwice(c, order, IdTexts(ids)) && (c in order || c !in IdTexts(ids))
  {
    EnumeratesMembers(back, set id | id in ids);
    IdTextsDistinct(ids);
    IdTextsDistinct(back);
    var m := ChainTarget(c, order, IdTexts(ids));
    var mid := Chain(c, order, IdTexts(ids));
    UuidsAreNoIds(back, uuids);
    var n := ChainTarget(mid, IdTexts(back), uuids);
    if c in order {
      BackAt(ids, back, m);
      BackAt(ids, back, IndexOf(order, c));
    } else if c in IdTexts(ids) {
      var i := IndexOf(IdTexts(ids), c);
      BackAt(ids, back, i);
      Decimal.Int32Length(ids[i]);
      assert |uuids[n]| == 32;
    } else {
      forall j | 0 <= j < |back| ensures IdTexts(back)[j] != c {
        assert back[j] in ids && IdTexts(ids)[IndexOf(ids, back[j])] == IdTexts(back)[j];
      }
    }
  }

  lemma BackAt(ids: seq<int>, back: seq<int>, i: nat)
    requires i < |ids| && Distinct(back) && (forall id :: id in ids <==> id in back)
    ensures IdText(ids[i]) in IdTexts(back) && IndexOf(IdTexts(back), IdText(ids[i])) == IndexOf(back, ids[i])
  {
    IdTextsDistinct(back);
    var j := IndexOf(back, ids[i]);
    assert IdTexts(back)[j] == IdText(ids[i]);
  }

  /** A hexadecimal UUID has 32 characters, the text of a 32-bit key at most eleven. */
  lemma UuidsAreNoIds(back: seq<int>, uuids: seq<string>)
    requires |uuids| == |back| && Int32(back) && forall i :: 0 <= i < |uuids| ==> |uuids[i]| == 32
    ensures forall id :: !RewrittenTwice(id, IdTexts(back), uuids)
  {
    forall j | 0 <= j < |back| ensures |IdTexts(back)[j]| <= 11 {
      Decimal.Int32Length(back[j]);
    }
  }

  ghost predicate LedgerSafe(ledger: map<int, LedgerRow>, order: seq<string>, ids: seq<int>)
    requires |order| == |ids|
  {
    forall k :: k in ledger ==>
      && !RewrittenTwice(ledger[k].credentialId, order, IdTexts(ids))
      && (ledger[k].credentialId in order || ledger[k].credentialId !in IdTexts(ids))
  }

  /** Contributor ids longer than the text of any 32-bit key, such as UUIDs, are never rewritten twice. */
  lemma LongIdsAreRewrittenOnce(order: seq<string>, ids: seq<int>)
    requires |order| == |ids| && Int32(ids) && forall i :: 0 <= i < |order| ==> |order[i]| > 11
    ensures forall c :: !RewrittenTwice(c, order, IdTexts(ids))
  {
    forall j | 0 <= j < |ids| ensures |IdTexts(ids)[j]| <= 11 {
      Decimal.Int32Length(ids[j]);
    }
  }

  /** If the ledger's references are that long as well, it comes back whole from the downgrade. */
  lemma LongReferencesAreSafe(ledger: map<int, LedgerRow>, order: seq<string>, ids: seq<int>)
    requires |order| == |ids| && Int32(ids) && forall i :: 0 <= i < |order| ==> |order[i]| > 11
    requires forall k :: k in ledger ==> |ledger[k].credentialId| > 11
    ensures LedgerSafe(ledger, order, ids)
  {
    LongIdsAreRewrittenOnce(order, ids);
    hide RewrittenTwice;
    forall j | 0 <= j < |ids| ensures |IdTexts(ids)[j]| <= 11 {
      Decimal.Int32Length(ids[j]);
    }
  }

  lemma TextsOfSmallKeys()
    ensures IdText(1) == "1" && IdText(2) == "2"
  {
  }

  /** The contributors `a` and `1`, read in this order, get the keys 1 and 2: the ledger row of `a` is
      first pointed at key 1 and then, with the row of contributor `1`, at key 2. */
  lemma ShortIdIsRewrittenTwice(a: ContributorRow, one: ContributorRow, row: LedgerRow, ownerId: Option<int>)
    requires a.ownerUserId != one.ownerUserId && row.credentialId == "a" && row.credentialOwnerUserId.Some?
    ensures var t := Tables(map[], map["a" := a, "1" := one], map[0 := row]); var order := ["a", "1"];
      && Before(t) && Allotted(t, order, [1, 2]) && forall c :: c in order ==> c in t.contributor
    ensures var t := Tables(map[], map["a" := a, "1" := one], map[0 := row]);
      && Upgraded(t, ownerId, ["a", "1"], [1, 2]).ledger[0].credentialId == "2"
      && !FollowsItsCredential(t, Upgraded(t, ownerId, ["a", "1"], [1, 2]), 0)
  {
    var t, order, ids := Tables(map[], map["a" := a, "1" := one], map[0 := row]), ["a", "1"], [1, 2];
    assert (set c | c in order) == t.contributor.Keys;
    assert Allotted(t, order, ids);
    TextsOfSmallKeys();
    var texts := IdTexts(ids);
    assert texts == ["1", "2"];
    assert RewrittenTwice("a", order, texts) by { assert order[0] == "a" && order[1] == texts[0]; }
    assert order[..1] == ["a"] && texts[..1] == ["1"] && ["a"][..0] == [] && ["1"][..0] == [];
    assert Chain("a", ["a"], ["1"]) == "1";
    assert Chain("a", order, texts) == "2";
    CopyKeepsReferences(t, ownerId, order, ids, 0);
  }

  /** A reference to no contributor that equals the text of a new key is taken for that key by the
      downgrade. */
  lemma ForeignReferenceIsCaptured(row: LedgerRow, uuid: string)
    requires row.credentialId == "1" && |uuid| == 32
    ensures var after := Relabelled(Relabelled(map[0 := row], ["a"], IdTexts([1])), IdTexts([1]), [uuid]);
      after[0].credentialId == uuid && !LedgerSafe(map[0 := row], ["a"], [1])
  {
    TextsOfSmallKeys();
    var texts := IdTexts([1]);
    assert texts == ["1"] && ["a"][..0] == [] && texts[..0] == [] && [uuid][..0] == [];
    assert Chain("1", ["a"], texts) == "1" && Chain("1", texts, [uuid]) == uuid;
    var ledger: map<int, LedgerRow> := map[0 := row];
    assert "1" in texts && "1" !in ["a"] && 0 in ledger;
  }

  /** `after` is `before` with every key `c` replaced by `name(c)`. */
  ghost predicate SameRowsRenamed(before: map<string, ContributorRow>, after: map<string, ContributorRow>, name: map<string, string>)
    requires name.Keys == before.Keys
  {
    && after.Keys == name.Values
    && forall c :: c in before ==> name[c] in after && after[name[c]] == before[c]
  }

  function NameOr(name: map<string, string>, c: string): string {
    if c in name then name[c] else c
  }

  ghost predicate SameLedgerRenamed(before: map<int, LedgerRow>, after: map<int, LedgerRow>, name: map<string, string>) {
    && after.Keys == before.Keys
    && forall k :: k in before ==> after[k] == before[k].(credentialId := NameOr(name, before[k].credentialId))
  }

  ghost predicate OneToOne(name: map<string, string>) {
    forall a, b :: a in name && b in name && a != b ==> name[a] != name[b]
  }

  ghost function Renaming(order: seq<string>, ids: seq<int>, back: seq<int>, uuids: seq<string>): map<string, string>
    requires |order| == |ids| && |back| == |uuids| && forall c :: c in order ==> ids[IndexOf(order, c)] in back
  {
    map c | c in order :: NewName(c, order, ids, back, uuids)
  }

  /**
    Upgrade, then downgrade: the downgrade succeeds, every provider row is back as it was, and under
    one renaming of contributor ids the contributor table is back exactly when every row had a known
    status and a non-empty model and consent version, and the ledger is back exactly when no
    reference was rewritten twice or captured.
   */
  lemma RoundTrip(t: Tables, ownerId: Option<int>, order: seq<string>, ids: seq<int>, back: seq<int>, uuids: seq<string>)
    requires Before(t) && Allotted(t, order, ids)
    requires Drawn(Upgraded(t, ownerId, order, ids), back, uuids)
    ensures forall c :: c in order ==> ids[IndexOf(order, c)] in back
    ensures CanRestore(Upgraded(t, ownerId, order, ids))
    ensures var down := Downgraded(Upgraded(t, ownerId, order, ids), back, uuids);
            var name := Renaming(order, ids, back, uuids);
      && name.Keys == t.contributor.Keys && OneToOne(name)
      && down.provider == t.provider
      && (SameRowsRenamed(t.contributor, down.contributor, name) <==>
            forall c :: c in t.contributor ==> KeepsItsColumns(t.contributor[c]))
      && (SameLedgerRenamed(t.ledger, down.ledger, name) <==> LedgerSafe(t.ledger, order, ids))
  {
    var up := Upgraded(t, ownerId, order, ids);
    UpgradedSchema(t, ownerId, order, ids);
    UpgradedCopies(t, ownerId, order, ids);
    UpgradedCanRestore(t, ownerId, order, ids);
    KeptIsLegacy(t, ownerId, order, ids);
    ReferenceRoundTrip("", order, ids, back, uuids);
    RenamingOneToOne(order, ids, back, uuids);
    AcceptedIsRestorable(up.provider, back);
    RowsRoundTrip(t.contributor, order, ids, up.provider, back, uuids);
    LedgerRoundTrip(t.ledger, order, ids, back, uuids);
    hide Before, Inserted, Relabelled, LedgerSafe, Distinct, Renaming, Kept;
  }

  lemma KeptIsLegacy(t: Tables, ownerId: Option<int>, order: seq<string>, ids: seq<int>)
    requires Before(t) && Allotted(t, order, ids)
    ensures forall c :: c in order <==> c in t.contributor
    ensures Kept(Upgraded(t, ownerId, order, ids).provider) == t.provider
  {
    UpgradedSchema(t, ownerId, order, ids);
    UpgradedLegacy(t, ownerId, order, ids);
    var provider := Upgraded(t, ownerId, order, ids).provider;
    forall id | id in t.provider ensures provider[id].(registry := None) == t.provider[id] {
      LegacyIsKept(t.provider[id], ownerId);
    }
    hide Inserted, CopyOf, MarkLegacy, WithColumns, Upgraded, Before, Allotted, After;
    KeptIsTheRest(t.provider, provider, set id | id in ids);
  }

  lemma KeptIsTheRest(before: map<int, ProviderRow>, provider: map<int, ProviderRow>, contributed: set<int>)
    requires provider.Keys == before.Keys + contributed && Contributions(provider) == contributed
    requires forall id :: id in before ==> id !in contributed && provider[id].(registry := None) == before[id]
    ensures Kept(provider) == before
  {
    forall id | id in before ensures id in Kept(provider) && Kept(provider)[id] == before[id] {
      assert id !in Contributions(provider);
    }
    forall id | id in Kept(provider) ensures id in before {
      assert id !in Contributions(provider);
    }
  }

  lemma UpgradedCanRestore(t: Tables, ownerId: Option<int>, order: seq<string>, ids: seq<int>)
    requires Before(t) && Allotted(t, order, ids)
    ensures forall c :: c in order <==> c in t.contributor
    ensures CanRestore(Upgraded(t, ownerId, order, ids))
  {
    UpgradedSchema(t, ownerId, order, ids);
    UpgradedCopies(t, ownerId, order, ids);
    KeptIsLegacy(t, ownerId, order, ids);
    var up := Upgraded(t, ownerId, order, ids);
    assert LedgerOwnersKnown(up.ledger);
    hide Inserted, CopyOf, MarkLegacy, WithColumns, Upgraded, Chain, UniqueProviders;
    forall i | 0 <= i < |ids| ensures Owned(up.provider[ids[i]]) {
      CopyIsOwned(t.contributor[order[i]]);
    }
    forall i, j | 0 <= i < j < |ids| ensures !SamePair(up.provider[ids[i]], up.provider[ids[j]]) {
      CopyIsOwned(t.contributor[order[i]]);
      CopyIsOwned(t.contributor[order[j]]);
      assert order[i] != order[j];
    }
    AcceptedIsRestorable(up.provider, ids);
  }

  lemma RenamingOneToOne(order: seq<string>, ids: seq<int>, back: seq<int>, uuids: seq<string>)
    requires |order| == |ids| && |back| == |uuids| && Distinct(ids) && Distinct(uuids)
    requires forall c :: c in order ==> ids[IndexOf(order, c)] in back
    ensures OneToOne(Renaming(order, ids, back, uuids))
  {
    forall a, b | a in order && b in order && a != b
      ensures NewName(a, order, ids, back, uuids) != NewName(b, order, ids, back, uuids)
    {
      var i, j := IndexOf(order, a), IndexOf(order, b);
      assert i != j && ids[i] != ids[j];
    }
  }

  /** `provider` holds under each new key the copy of the contributor row the key was allotted to. */
  ghost predicate Copied(
      contributor: map<string, ContributorRow>, order: seq<string>, ids: seq<int>, provider: map<int, ProviderRow>)
    requires |order| == |ids|
  {
    && Enumerates(order, contributor.Keys)
    && forall i {:trigger ids[i]} {:trigger order[i]} :: 0 <= i < |ids| ==>
         order[i] in contributor && ids[i] in provider && provider[ids[i]] == CopyOf(contributor[order[i]])
  }

  lemma RowsRoundTrip(
      contributor: map<string, ContributorRow>, order: seq<string>, ids: seq<int>,
      provider: map<int, ProviderRow>, back: seq<int>, uuids: seq<string>)
    requires |order| == |ids| && |back| == |uuids| && Distinct(uuids)
    requires Copied(contributor, order, ids, provider)
    requires Enumerates(back, set id | id in ids)
    requires forall c :: c in order ==> ids[IndexOf(order, c)] in back
    requires forall i {:trigger back[i]} :: 0 <= i < |back| ==> back[i] in provider && Owned(provider[back[i]])
    ensures Renaming(order, ids, back, uuids).Keys == contributor.Keys
    ensures SameRowsRenamed(contributor, Inserted(uuids, RestoreRows(provider, back)), Renaming(order, ids, back, uuids)) <==>
            forall c :: c in contributor ==> KeepsItsColumns(contributor[c])
  {
    hide Inserted, CopyOf, RestoreOf, KeepsItsColumns, Distinct, RestoreRows, SameRowsRenamed, Owned, Renaming;
    var name := Renaming(order, ids, back, uuids);
    var rows := Inserted(uuids, RestoreRows(provider, back));
    RestoredNames(contributor, order, ids, provider, back, uuids);
    AllRestored(contributor, order, ids, provider, back, uuids);
    RenamedWhenAllKeep(contributor, rows, name);
  }

  lemma RestoredNames(
      contributor: map<string, ContributorRow>, order: seq<string>, ids: seq<int>,
      provider: map<int, ProviderRow>, back: seq<int>, uuids: seq<string>)
    requires |order| == |ids| && |back| == |uuids| && Distinct(uuids)
    requires Enumerates(order, contributor.Keys) && Enumerates(back, set id | id in ids)
    requires forall c :: c in order ==> ids[IndexOf(order, c)] in back
    requires forall i {:trigger back[i]} :: 0 <= i < |back| ==> back[i] in provider && Owned(provider[back[i]])
    ensures Renaming(order, ids, back, uuids).Keys == contributor.Keys
    ensures Inserted(uuids, RestoreRows(provider, back)).Keys == Renaming(order, ids, back, uuids).Values
  {
    hide Inserted, RestoreRows, Distinct, Owned;
    EnumeratesMembers(order, contributor.Keys);
    EnumeratesMembers(back, set id | id in ids);
    RenamingRange(order, ids, back, uuids);
    InsertedRows(uuids, RestoreRows(provider, back));
  }

  lemma AllRestored(
      contributor: map<string, ContributorRow>, order: seq<string>, ids: seq<int>,
      provider: map<int, ProviderRow>, back: seq<int>, uuids: seq<string>)
    requires |order| == |ids| && |back| == |uuids| && Distinct(uuids)
    requires Copied(contributor, order, ids, provider)
    requires forall c :: c in order ==> ids[IndexOf(order, c)] in back
    requires forall i {:trigger back[i]} :: 0 <= i < |back| ==> back[i] in provider && Owned(provider[back[i]])
    ensures var rows, name := Inserted(uuids, RestoreRows(provider, back)), Renaming(order, ids, back, uuids);
      forall c :: c in contributor ==>
        c in name && name[c] in rows && (rows[name[c]] == contributor[c] <==> KeepsItsColumns(contributor[c]))
  {
    EnumeratesMembers(order, contributor.Keys);
    hide *;
    forall c | c in contributor {
      RestoredUnderName(contributor, order, ids, provider, back, uuids, c);
    }
  }

  lemma RestoredUnderName(
      contributor: map<string, ContributorRow>, order: seq<string>, ids: seq<int>,
      provider: map<int, ProviderRow>, back: seq<int>, uuids: seq<string>, c: string)
    requires |order| == |ids| && |back| == |uuids| && Distinct(uuids) && c in order && c in contributor
    requires Copied(contributor, order, ids, provider)
    requires forall c :: c in order ==> ids[IndexOf(order, c)] in back
    requires forall i {:trigger back[i]} :: 0 <= i < |back| ==> back[i] in provider && Owned(provider[back[i]])
    ensures var rows, name := Inserted(uuids, RestoreRows(provider, back)), Renaming(order, ids, back, uuids);
      c in name && name[c] in rows && (rows[name[c]] == contributor[c] <==> KeepsItsColumns(contributor[c]))
  {
    hide Inserted, CopyOf, RestoreOf, KeepsItsColumns, Distinct, RestoreRows, Owned, Copied, NewName;
    RestoredAt(contributor, order, ids, provider, back, uuids, c);
  }

  lemma RenamingRange(order: seq<string>, ids: seq<int>, back: seq<int>, uuids: seq<string>)
    requires |order| == |ids| && |back| == |uuids| && Distinct(order) && Distinct(back)
    requires forall c :: c in order ==> ids[IndexOf(order, c)] in back
    requires forall id :: id in back ==> id in ids
    ensures Renaming(order, ids, back, uuids).Values == set u | u in uuids
  {
    var name := Renaming(order, ids, back, uuids);
    forall u | u in uuids ensures u in name.Values {
      var j := IndexOf(uuids, u);
      var i := IndexOf(ids, back[j]);
      assert IndexOf(order, order[i]) == i && IndexOf(back, back[j]) == j;
      assert name[order[i]] == u;
    }
  }

  lemma RenamedWhenAllKeep(before: map<string, ContributorRow>, after: map<string, ContributorRow>, name: map<string, string>)
    requires name.Keys == before.Keys && after.Keys == name.Values
    requires forall c :: c in before ==>
      name[c] in after && (after[name[c]] == before[c] <==> KeepsItsColumns(before[c]))
    ensures SameRowsRenamed(before, after, name) <==> forall c :: c in before ==> KeepsItsColumns(before[c])
  {
  }

  lemma RestoredAt(
      contributor: map<string, ContributorRow>, order: seq<string>, ids: seq<int>,
      provider: map<int, ProviderRow>, back: seq<int>, uuids: seq<string>, c: string)
    requires |order| == |ids| && |back| == |uuids| && c in order && ids[IndexOf(order, c)] in back
    requires Copied(contributor, order, ids, provider) && Distinct(uuids) && c in contributor
    requires forall i {:trigger back[i]} :: 0 <= i < |back| ==> back[i] in provider && Owned(provider[back[i]])
    ensures var rows := Inserted(uuids, RestoreRows(provider, back)); var name := NewName(c, order, ids, back, uuids);
      && name in rows && rows[name] == RestoreOf(CopyOf(contributor[c]))
      && (rows[name] == contributor[c] <==> KeepsItsColumns(contributor[c]))
  {
    hide Inserted, CopyOf, RestoreOf, KeepsItsColumns, Distinct, Owned, Enumerates;
    InsertedRows(uuids, RestoreRows(provider, back));
    var i := IndexOf(order, c);
    var j := IndexOf(back, ids[i]);
    CopyIsOwned(contributor[c]);
    RowRoundTrip(contributor[c]);
  }

  lemma LedgerRoundTrip(ledger: map<int, LedgerRow>, order: seq<string>, ids: seq<int>, back: seq<int>, uuids: seq<string>)
    requires |order| == |ids| && Distinct(order) && Distinct(ids) && Int32(ids)
    requires Enumerates(back, set id | id in ids) && Int32(back)
    requires |uuids| == |back| && Distinct(uuids) && forall i :: 0 <= i < |uuids| ==> |uuids[i]| == 32
    requires forall c :: c in order ==> ids[IndexOf(order, c)] in back
    ensures SameLedgerRenamed(ledger, Relabelled(Relabelled(ledger, order, IdTexts(ids)), IdTexts(back), uuids),
                              Renaming(order, ids, back, uuids)) <==>
            LedgerSafe(ledger, order, ids)
  {
    var name := Renaming(order, ids, back, uuids);
    var from := IdTexts(ids);
    var after := Relabelled(Relabelled(ledger, order, from), IdTexts(back), uuids);
    forall k | k in ledger
      ensures after[k] == ledger[k].(credentialId := NameOr(name, ledger[k].credentialId)) <==>
        !RewrittenTwice(ledger[k].credentialId, order, from) && (ledger[k].credentialId in order || ledger[k].credentialId !in from)
    {
      ReferenceRoundTrip(ledger[k].credentialId, order, ids, back, uuids);
    }
  }

  lemma CopiesAreHeld(provider: map<int, ProviderRow>, contributor: map<string, ContributorRow>, order: seq<string>, ids: seq<int>)
    requires |order| == |ids| && (forall c :: c in order ==> c in contributor) && Distinct(ids)
    ensures HoldsContributors(provider + Inserted(ids, CopyRows(contributor, order)), contributor, order, ids)
  {
    hide CopyOf, SaysOfContributor, Inserted, Distinct;
    InsertedRows(ids, CopyRows(contributor, order));
    forall i | 0 <= i < |ids| ensures order[i] in contributor && SaysOfContributor(CopyOf(contributor[order[i]]), contributor[order[i]]) {
      CopySays(contributor[order[i]]);
    }
  }

  lemma InsertedOutside(provider: map<int, ProviderRow>, ids: seq<int>, rows: seq<ProviderRow>)
    requires |ids| == |rows|
    ensures SameOutside(provider, provider + Inserted(ids, rows), ids)
  {
    InsertedKeys(ids, rows);
    hide Inserted;
  }

  lemma {:induction false} InsertedKeys<K, V>(keys: seq<K>, rows: seq<V>)
    requires |keys| == |rows|
    ensures forall k :: k in Inserted(keys, rows) <==> k in keys
  {
    if keys != [] {
      InsertedKeys(keys[..|keys| - 1], rows[..|rows| - 1]);
      assert keys == keys[..|keys| - 1] + [keys[|keys| - 1]];
    }
  }

  /** Under every UUID stands what the registry said of the contribution it was drawn for; no other row. */
  ghost predicate HoldsContributions(
      contributor: map<string, ContributorRow>, provider: map<int, ProviderRow>, back: seq<int>, uuids: seq<string>)
    requires |back| == |uuids|
  {
    && (forall u :: u in contributor <==> u in uuids)
    && forall i :: 0 <= i < |back| ==> back[i] in provider && uuids[i] in contributor && SaysOfRegistry(contributor[uuids[i]], provider[back[i]])
  }

  lemma RestoredHold(provider: map<int, ProviderRow>, back: seq<int>, uuids: seq<string>)
    requires |back| == |uuids| && Distinct(uuids)
    requires forall i {:trigger back[i]} :: 0 <= i < |back| ==> back[i] in provider && Owned(provider[back[i]])
    ensures HoldsContributions(Inserted(uuids, RestoreRows(provider, back)), provider, back, uuids)
  {
    hide *;
    InsertedKeys(uuids, RestoreRows(provider, back));
    forall i | 0 <= i < |back| {
      RestoredRowHeld(provider, back, uuids, i);
    }
    HeldRowByRow(Inserted(uuids, RestoreRows(provider, back)), provider, back, uuids);
  }

  lemma RestoredRowHeld(provider: map<int, ProviderRow>, back: seq<int>, uuids: seq<string>, i: nat)
    requires |back| == |uuids| && Distinct(uuids) && i < |back|
    requires forall i {:trigger back[i]} :: 0 <= i < |back| ==> back[i] in provider && Owned(provider[back[i]])
    ensures var table := Inserted(uuids, RestoreRows(provider, back));
      back[i] in provider && uuids[i] in table && SaysOfRegistry(table[uuids[i]], provider[back[i]])
  {
    hide Inserted, RestoreOf, SaysOfRegistry, Distinct, Owned;
    InsertedRows(uuids, RestoreRows(provider, back));
    RestoreSays(provider[back[i]]);
  }

  lemma HeldRowByRow(contributor: map<string, ContributorRow>, provider: map<int, ProviderRow>, back: seq<int>, uuids: seq<string>)
    requires |back| == |uuids| && forall u :: u in contributor <==> u in uuids
    requires forall i :: 0 <= i < |back| ==> back[i] in provider && uuids[i] in contributor && SaysOfRegistry(contributor[uuids[i]], provider[back[i]])
    ensures HoldsContributions(contributor, provider, back, uuids)
  {
    hide SaysOfRegistry;
  }

  lemma RestoredColumns(t: Tables, back: seq<int>, uuids: seq<string>)
    requires Drawn(t, back, uuids) && CanRestore(t)
    ensures HoldsContributions(Downgraded(t, back, uuids).contributor, t.provider, back, uuids)
  {
    AcceptedIsRestorable(t.provider, back);
    hide Inserted, RestoreRows, HoldsContributions, Distinct, Relabelled, Kept, Owned, Enumerates;
    RestoredHold(t.provider, back, uuids);
  }

  /** The registry when the first n rows have been marked. */
  function MarkedUpTo(provider: map<int, ProviderRow>, ownerId: Option<int>, rows: seq<int>, n: nat): map<int, ProviderRow>
    requires n <= |rows|
  {
    map id | id in provider :: if id in rows[..n] then MarkLegacy(WithColumns(provider[id]), ownerId) else WithColumns(provider[id])
  }

  lemma NoneMarked(provider: map<int, ProviderRow>, ownerId: Option<int>, rows: seq<int>)
    ensures MarkedUpTo(provider, ownerId, rows, 0) == map id | id in provider :: WithColumns(provider[id])
  {
    hide MarkLegacy, WithColumns;
  }

  lemma MarkStep(provider: map<int, ProviderRow>, ownerId: Option<int>, rows: seq<int>, i: nat)
    requires Enumerates(rows, provider.Keys) && i < |rows|
    ensures rows[i] in MarkedUpTo(provider, ownerId, rows, i) && MarkedUpTo(provider, ownerId, rows, i)[rows[i]].registry.Some?
    ensures var before := MarkedUpTo(provider, ownerId, rows, i);
      MarkedUpTo(provider, ownerId, rows, i + 1) == before[rows[i] := MarkLegacy(before[rows[i]], ownerId)]
  {
    EnumeratesMembers(rows, provider.Keys);
    NextPrefix(rows, i);
    hide MarkLegacy, WithColumns, Enumerates;
    var before, after := MarkedUpTo(provider, ownerId, rows, i), MarkedUpTo(provider, ownerId, rows, i + 1);
    assert before[rows[i]] == WithColumns(provider[rows[i]]);
    forall id | id in provider ensures after[id] == before[rows[i] := MarkLegacy(before[rows[i]], ownerId)][id] {
    }
  }

  lemma NextPrefix<T>(rows: seq<T>, i: nat)
    requires Distinct(rows) && i < |rows|
    ensures rows[i] !in rows[..i] && forall x :: x in rows[..i + 1] <==> x in rows[..i] || x == rows[i]
  {
    assert rows[..i + 1] == rows[..i] + [rows[i]];
  }

  lemma AllMarked(provider: map<int, ProviderRow>, ownerId: Option<int>, rows: seq<int>)
    requires Enumerates(rows, provider.Keys)
    ensures MarkedUpTo(provider, ownerId, rows, |rows|) == Marked(provider, ownerId)
  {
    EnumeratesMembers(rows, provider.Keys);
    hide MarkLegacy, WithColumns;
    assert rows[..|rows|] == rows;
  }

  // ---- The migration ----

  class Database {
    var provider: map<int, ProviderRow>
    var contributor: map<string, ContributorRow>
    var ledger: map<int, LedgerRow>

    ghost function State(): Tables
      reads this
    {
      Tables(provider, contributor, ledger)
    }

    method CopyContributorRows(order: seq<string>, ids: seq<int>)
      requires |order| == |ids| && forall c :: c in order ==> c in contributor
      modifies this`provider, this`ledger
      ensures provider == old(provider) + Inserted(ids, CopyRows(contributor, order))
      ensures ledger == Relabelled(old(ledger), order, IdTexts(ids))
      ensures Distinct(ids) ==> HoldsContributors(provider, contributor, order, ids)
      ensures SameOutside(old(provider), provider, ids)
    {
      hide *;
      var texts := IdTexts(ids);
      ghost var before, references := provider, ledger;
      CopiedEnds(before, contributor, order, ids);
      RelabelledByNothing(ledger, order[..0], texts[..0]);
      var i := 0;
      while i < |order|
        invariant 0 <= i <= |order|
        invariant provider == CopiedUpTo(before, contributor, order, ids, i)
        invariant ledger == Relabelled(references, order[..i], texts[..i])
      {
        CopiedStep(before, contributor, order, ids, i);
        RelabelledStep(references, order, texts, i);
        provider := provider[ids[i] := CopyOf(contributor[order[i]])];
        ledger := Updated(ledger, order[i], texts[i]);
        i := i + 1;
      }
      assert order[..i] == order && texts[..i] == texts;
      InsertedOutside(before, ids, CopyRows(contributor, order));
      if Distinct(ids) {
        CopiesAreHeld(before, contributor, order, ids);
      }
    }

    /** Marks every existing row as the owner's, in the order the rows were read. */
    method MarkRows(ownerId: Option<int>, rows: seq<int>)
      requires Enumerates(rows, provider.Keys)
      modifies this`provider
      ensures provider == Marked(old(provider), ownerId)
    {
      hide *;
      ghost var before := provider;
      provider := map id | id in provider :: WithColumns(provider[id]);
      NoneMarked(before, ownerId, rows);
      var i := 0;
      while i < |rows|
        invariant 0 <= i <= |rows|
        invariant provider == MarkedUpTo(before, ownerId, rows, i)
      {
        MarkStep(before, ownerId, rows, i);
        provider := provider[rows[i] := MarkLegacy(provider[rows[i]], ownerId)];
        i := i + 1;
      }
      AllMarked(before, ownerId, rows);
    }

    method Upgrade(ownerId: Option<int>, rows: seq<int>, order: seq<string>, ids: seq<int>)
      requires Before(State()) && Enumerates(rows, provider.Keys) && Allotted(State(), order, ids)
      modifies this
      ensures State() == Upgraded(old(State()), ownerId, order, ids)
      ensures provider.Keys == old(provider).Keys + (set id | id in ids)
      ensures HoldsContributors(provider, old(contributor), order, ids)
      ensures forall id :: id in old(provider) ==> id in provider && SaysOfOwner(provider[id], old(provider)[id], ownerId)
    {
      UpgradedColumns(State(), ownerId, order, ids);
      hide SaysOfContributor, SaysOfOwner, Before, Enumerates, Inserted, CopyOf, HoldsContributors, SameOutside;
      MarkRows(ownerId, rows);
      CopyContributorRows(order, ids);
      contributor := map[];
    }

    /** Runs in one transaction: a violated constraint undoes everything. */
    method Downgrade(back: seq<int>, uuids: seq<string>) returns (ok: bool)
      requires After(State()) && Drawn(State(), back, uuids)
      modifies this
      ensures ok <==> CanRestore(old(State()))
      ensures ok ==> State() == Downgraded(old(State()), back, uuids)
      ensures ok ==> HoldsContributions(contributor, old(provider), back, uuids)
      ensures !ok ==> State() == old(State())
    {
      var saved := provider;
      var savedLedger := ledger;
      AcceptedIsRestorable(provider, back);
      if CanRestore(State()) {
        RestoredColumns(State(), back, uuids);
      }
      ok := RestoreContributions(back, uuids);
      if ok {
        RelabelledOwners(savedLedger, IdTexts(back), uuids);
        provider := Kept(provider);
        ok := UniqueProviders(provider) && LedgerOwnersKnown(ledger);
      }
      if !ok {
        provider, contributor, ledger := saved, map[], savedLedger;
      }
    }

    /** One INSERT into the contributor table: owner NOT NULL, (owner, provider) unique. */
    method InsertContributor(u: string, row: ProviderRow) returns (ok: bool)
      modifies this`contributor
      ensures ok <==> Owned(row) && forall v :: v in old(contributor) ==> !Clashes(old(contributor)[v], row)
      ensures ok ==> contributor == old(contributor)[u := RestoreOf(row)]
      ensures !ok ==> contributor == old(contributor)
      ensures UniquePairs(old(contributor)) && u !in old(contributor) ==>
        UniquePairs(contributor) &&
        (ok <==> Owned(row) && UniquePairs(old(contributor)[u := RestoreOf(row)]))
    {
      if UniquePairs(contributor) && u !in contributor && Owned(row) {
        ClashingPairs(contributor, u, row);
      }
      if !Owned(row) || exists v :: v in contributor && Clashes(contributor[v], row) {
        return false;
      }
      contributor := contributor[u := RestoreOf(row)];
      ok := true;
    }

    /** The loop over the contributed rows; stops at the first row the contributor table refuses. */
    method RestoreContributions(back: seq<int>, uuids: seq<string>) returns (ok: bool)
      requires After(State()) && Drawn(State(), back, uuids)
      modifies this`contributor, this`ledger
      ensures ok <==> Accepted(provider, back)
      ensures ok ==> contributor == Inserted(uuids, RestoreRows(provider, back))
      ensures ok ==> ledger == Relabelled(old(ledger), IdTexts(back), uuids)
    {
      var texts := IdTexts(back);
      EnumeratesMembers(back, Contributions(provider));
      assert Accepted(provider, back[..0]);
      assert Inserted(uuids[..0], RestoreRows(provider, back[..0])) == map[];
      hide Inserted, Chain, Relabelled, RestoreOf, RestoreRows, Accepted;
      RelabelledByNothing(ledger, texts[..0], uuids[..0]);
      var i := 0;
      while i < |back|
        invariant 0 <= i <= |back|
        invariant Accepted(provider, back[..i])
        invariant contributor == Inserted(uuids[..i], RestoreRows(provider, back[..i]))
        invariant ledger == Relabelled(old(ledger), texts[..i], uuids[..i])
      {
        AcceptedStep(provider, back, uuids, i);
        ok := InsertContributor(uuids[i], provider[back[i]]);
        if !ok {
          if Accepted(provider, back) {
            AcceptedPrefix(provider, back, i + 1);
          }
          return;
        }
        RestoredStep(provider, back, uuids, i);
        ledger := Updated(ledger, texts[i], uuids[i]);
        RelabelledStep(old(ledger), texts, uuids, i);
        i := i + 1;
      }
      assert back[..i] == back && uuids[..i] == uuids && texts[..i] == texts;
      ok := true;
    }
  }
}
