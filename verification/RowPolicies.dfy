/**
  The row-level-security policies that the reconciliation migration installs on every application
  table, the loop that installs them, and how PostgreSQL applies permissive policies to statements.

  A policy expression is one of the four forms the inventory uses: the session is the owner, the row
  is the session's own, the row is publicly readable, or a disjunction.
 */
module RowPolicies {
  import opened Options

  datatype Table =
    | AlembicVersion | AuditLogs | Chapters | CrawlJobs | EmailVerificationTokens | Genres | LibraryItems | NovelGenres
    | NovelGlossaryAliases | NovelGlossaryDecisionEvents | NovelGlossaryEntries | NovelGlossaryQaFindings
    | NovelGlossarySourceProvenance | NovelRequests | NovelTags | Novels | PasswordResetTokens | ProviderCredentials
    | ProviderRequests | ReadingHistory | ReadingProgress | Reviews | ScheduledCronLog | SchedulerRuntimeStates
    | SystemSettings | Tags | TranslationJobs | UserGlossaryDisplayOverrides | Users
    | Other(name: string)

  datatype Command = All | Select | Insert | Update | Delete

  datatype Expr = IsOwner | IsMine | IsPublic | Or(left: Expr, right: Expr)

  datatype Policy = Policy(name: string, command: Command, roles: seq<string>, using: Option<Expr>, check: Option<Expr>)

  // ---- The inventory ----

  /** The tables in the order the installer visits them. */
  function AllTables(): seq<Table> {
    [AlembicVersion, AuditLogs, Chapters, CrawlJobs, EmailVerificationTokens, Genres, LibraryItems, NovelGenres,
     NovelGlossaryAliases, NovelGlossaryDecisionEvents, NovelGlossaryEntries, NovelGlossaryQaFindings,
     NovelGlossarySourceProvenance, NovelRequests, NovelTags, Novels, PasswordResetTokens, ProviderCredentials,
     ProviderRequests, ReadingHistory, ReadingProgress, Reviews, ScheduledCronLog, SchedulerRuntimeStates,
     SystemSettings, Tags, TranslationJobs, UserGlossaryDisplayOverrides, Users]
  }

  predicate IsOwnerOnly(t: Table) {
    t.AuditLogs? || t.CrawlJobs? || t.EmailVerificationTokens? || t.NovelGlossaryDecisionEvents? || t.PasswordResetTokens? ||
    t.ProviderCredentials? || t.ProviderRequests? || t.SchedulerRuntimeStates? || t.SystemSettings? || t.TranslationJobs?
  }

  predicate IsPublicRead(t: Table) {
    t.Chapters? || t.Genres? || t.NovelGenres? || t.NovelGlossaryAliases? || t.NovelGlossaryEntries? ||
    t.NovelGlossaryQaFindings? || t.NovelGlossarySourceProvenance? || t.NovelTags? || t.Novels? || t.Tags?
  }

  /** The tables whose policies name the session's own rows. */
  predicate IsUserTable(t: Table) {
    t.Users? || t.LibraryItems? || t.NovelRequests? || t.ReadingHistory? || t.ReadingProgress? || t.Reviews? ||
    t.UserGlossaryDisplayOverrides?
  }

  const AUTHENTICATED: seq<string> := ["authenticated"]
  const EVERYONE: seq<string> := ["anon", "authenticated"]

  function TableName(t: Table): string {
    match t
    case AlembicVersion => "alembic_version"
    case AuditLogs => "audit_logs"
    case Chapters => "chapters"
    case CrawlJobs => "crawl_jobs"
    case EmailVerificationTokens => "email_verification_tokens"
    case Genres => "genres"
    case LibraryItems => "library_items"
    case NovelGenres => "novel_genres"
    case NovelGlossaryAliases => "novel_glossary_aliases"
    case NovelGlossaryDecisionEvents => "novel_glossary_decision_events"
    case NovelGlossaryEntries => "novel_glossary_entries"
    case NovelGlossaryQaFindings => "novel_glossary_qa_findings"
    case NovelGlossarySourceProvenance => "novel_glossary_source_provenance"
    case NovelRequests => "novel_requests"
    case NovelTags => "novel_tags"
    case Novels => "novels"
    case PasswordResetTokens => "password_reset_tokens"
    case ProviderCredentials => "provider_credentials"
    case ProviderRequests => "provider_requests"
    case ReadingHistory => "reading_history"
    case ReadingProgress => "reading_progress"
    case Reviews => "reviews"
    case ScheduledCronLog => "scheduled_cron_log"
    case SchedulerRuntimeStates => "scheduler_runtime_states"
    case SystemSettings => "system_settings"
    case Tags => "tags"
    case TranslationJobs => "translation_jobs"
    case UserGlossaryDisplayOverrides => "user_glossary_display_overrides"
    case Users => "users"
    case Other(name) => name
  }

  const OWNER := Some(IsOwner)
  const OWNER_OR_MINE := Some(Or(IsOwner, IsMine))
  const OWNER_OR_PUBLIC := Some(Or(IsOwner, IsPublic))

  function OwnerWritePolicies(t: Table): seq<Policy> {
    [Policy("Owner can insert " + TableName(t), Insert, AUTHENTICATED, None, OWNER),
     Policy("Owner can update " + TableName(t), Update, AUTHENTICATED, OWNER, OWNER),
     Policy("Owner can delete " + TableName(t), Delete, AUTHENTICATED, OWNER, None)]
  }

  function UserRead(t: Table): Policy {
    Policy("Owner or user-read for " + TableName(t), Select, AUTHENTICATED, OWNER_OR_MINE, None)
  }

  function UserInsert(t: Table): Policy {
    Policy("Owner or user-insert for " + TableName(t), Insert, AUTHENTICATED, None, OWNER_OR_MINE)
  }

  function UserUpdate(t: Table): Policy {
    Policy("Owner or user-update for " + TableName(t), Update, AUTHENTICATED, OWNER_OR_MINE, OWNER_OR_MINE)
  }

  function UserDelete(t: Table): Policy {
    Policy("Owner or user-delete for " + TableName(t), Delete, AUTHENTICATED, OWNER_OR_MINE, None)
  }

  function PublicRead(t: Table): Policy {
    Policy("Owner or public-read for " + TableName(t), Select, EVERYONE, OWNER_OR_PUBLIC, None)
  }

  function UserTablePolicies(t: Table): seq<Policy> {
    match t
    case Users => [
      Policy("Owner or self-read for users", Select, AUTHENTICATED, OWNER_OR_MINE, None),
      Policy("Owner or self-update for users", Update, AUTHENTICATED, OWNER_OR_MINE, OWNER_OR_MINE),
      Policy("Owner can insert users", Insert, AUTHENTICATED, None, OWNER),
      Policy("Owner can delete users", Delete, AUTHENTICATED, OWNER, None)]
    case LibraryItems => [UserRead(t), UserInsert(t), UserDelete(t)]
    case NovelRequests => [UserRead(t), UserInsert(t)]
    case ReadingHistory => [UserRead(t), UserInsert(t)]
    case ReadingProgress => [UserRead(t), UserInsert(t), UserUpdate(t)]
    case Reviews => [PublicRead(t), UserInsert(t), UserUpdate(t), UserDelete(t)]
    case UserGlossaryDisplayOverrides => [UserRead(t), UserInsert(t), UserUpdate(t), UserDelete(t)]
    case _ => []
  }

  /** The declared policies of a table, None for a table the inventory does not name. */
  function Policies(t: Table): Option<seq<Policy>> {
    if IsUserTable(t) then Some(UserTablePolicies(t))
    else if IsPublicRead(t) then Some([PublicRead(t)] + OwnerWritePolicies(t))
    else if IsOwnerOnly(t) then Some([Policy("Owner has full access to " + TableName(t), All, AUTHENTICATED, OWNER, OWNER)])
    else if t.AlembicVersion? then Some([Policy("Owner can read alembic_version", Select, AUTHENTICATED, OWNER, None)])
    else if t.ScheduledCronLog? then Some([])
    else None
  }

  /** The guard of the installer never fires: the inventory names exactly the application tables. */
  lemma InventoryCoversTables(t: Table)
    ensures Policies(t).Some? <==> t in AllTables()
    ensures t in AllTables() <==> !t.Other?
  {
    AllTablesListed(t);
    hide AllTables, UserTablePolicies, PublicRead, OwnerWritePolicies, TableName;
  }

  lemma AllTablesListed(t: Table)
    ensures t in AllTables() <==> !t.Other?
  {
    hide AllTables;
    if IsOwnerOnly(t) {
      OwnerOnlyListed(t);
    } else if IsPublicRead(t) {
      PublicReadListed(t);
    } else if IsUserTable(t) {
      UserTableListed(t);
    } else if t.Other? {
      OtherNotListed(t);
    } else {
      RestListed();
      assert t == AlembicVersion || t == ScheduledCronLog;
    }
  }

  lemma RestListed()
    ensures AlembicVersion in AllTables() && ScheduledCronLog in AllTables()
  {
  }

  lemma OtherNotListed(t: Table)
    requires t.Other?
    ensures t !in AllTables()
  {
  }

  lemma OwnerOnlyListed(t: Table)
    requires IsOwnerOnly(t)
    ensures t in AllTables()
  {
  }

  lemma PublicReadListed(t: Table)
    requires IsPublicRead(t)
    ensures t in AllTables()
  {
  }

  lemma UserTableListed(t: Table)
    requires IsUserTable(t)
    ensures t in AllTables()
  {
  }

  ghost predicate DistinctNames(policies: seq<Policy>) {
    forall i, j :: 0 <= i < j < |policies| ==> policies[i].name != policies[j].name
  }

  /** The letters that tell the policies of one table apart, whatever the table is called. */
  lemma NameLetters(t: Table)
    ensures var w := OwnerWritePolicies(t);
      && |w[0].name| > 14 && |w[1].name| > 14 && |w[2].name| > 14
      && w[0].name[6] == w[1].name[6] == w[2].name[6] == 'c'
      && w[0].name[10] == 'i' && w[1].name[10] == 'u' && w[2].name[10] == 'd'
    ensures |PublicRead(t).name| > 14 && PublicRead(t).name[6] == 'o' && PublicRead(t).name[9] == 'p'
    ensures |UserRead(t).name| > 14 && UserRead(t).name[9] == 'u' && UserRead(t).name[14] == 'r'
    ensures |UserInsert(t).name| > 14 && UserInsert(t).name[9] == 'u' && UserInsert(t).name[14] == 'i'
    ensures |UserUpdate(t).name| > 14 && UserUpdate(t).name[9] == 'u' && UserUpdate(t).name[14] == 'u'
    ensures |UserDelete(t).name| > 14 && UserDelete(t).name[9] == 'u' && UserDelete(t).name[14] == 'd'
  {
    hide TableName;
  }

  /** No two policies of one table have the same name, so no CREATE POLICY can fail for its name. */
  lemma InventoryNamesDistinct(t: Table)
    requires Policies(t).Some?
    ensures DistinctNames(Policies(t).value)
  {
    hide PublicRead, OwnerWritePolicies, UserTablePolicies, TableName, DistinctNames;
    if IsUserTable(t) {
      UserTableNamesDistinct(t);
    } else if IsPublicRead(t) {
      PublicNamesDistinct(t);
    } else {
      FewNamesDistinct(Policies(t).value);
    }
  }

  lemma PublicNamesDistinct(t: Table)
    ensures DistinctNames([PublicRead(t)] + OwnerWritePolicies(t))
  {
    NameLetters(t);
    hide PublicRead, TableName;
  }

  lemma FewNamesDistinct(policies: seq<Policy>)
    requires |policies| <= 1
    ensures DistinctNames(policies)
  {
  }

  lemma UserTableNamesDistinct(t: Table)
    requires IsUserTable(t)
    ensures DistinctNames(UserTablePolicies(t))
  {
    hide UserRead, UserInsert, UserUpdate, UserDelete, PublicRead, TableName;
    if t == Users {
      UsersNamesDistinct();
    } else {
      NameLetters(t);
    }
  }

  lemma UsersNamesDistinct()
    ensures DistinctNames(UserTablePolicies(Users))
  {
    assert "Owner or self-read for users"[6] == 'o' && "Owner or self-update for users"[6] == 'o';
    assert "Owner or self-read for users"[14] == 'r' && "Owner or self-update for users"[14] == 'u';
    assert "Owner can insert users"[6] == 'c' && "Owner can delete users"[6] == 'c';
    assert "Owner can insert users"[10] == 'i' && "Owner can delete users"[10] == 'd';
  }

  // ---- Permissive policies applied to statements ----

  type Key = nat

  /** The columns that policies or the session functions read; `publicRead` stands for the value of the
      table's public-read predicate at the row, `payload` for all other columns. */
  datatype Row = Row(id: int, userId: Option<int>, subject: Option<string>, role: string, publicRead: bool, payload: string)

  type Data = map<Table, map<Key, Row>>

  function Rows(d: Data, t: Table): map<Key, Row> {
    if t in d then d[t] else map[]
  }

  /** The policies in force, by table and name. */
  type Catalog = map<Table, map<string, Policy>>

  function InForce(c: Catalog, t: Table): map<string, Policy> {
    if t in c then c[t] else map[]
  }

  /** The database role of the session and the values of `is_owner()` and `current_user_id()`. */
  datatype Session = Session(dbRole: string, isOwner: bool, userId: Option<int>)

  /** The row belongs to the session's user: it is the user's own row, or names the user as its owner. */
  predicate Mine(t: Table, row: Row, s: Session) {
    s.userId.Some? && if t == Users then row.id == s.userId.value else row.userId == s.userId
  }

  function Eval(e: Expr, t: Table, row: Row, s: Session): bool {
    match e
    case IsOwner => s.isOwner
    case IsMine => Mine(t, row, s)
    case IsPublic => row.publicRead
    case Or(left, right) => Eval(left, t, row, s) || Eval(right, t, row, s)
  }

  predicate Applies(p: Policy, command: Command, s: Session) {
    (p.command == All || p.command == command) && s.dbRole in p.roles
  }

  /** Some applicable policy lets the session see or touch the existing row. */
  predicate UsingPasses(c: Catalog, t: Table, command: Command, row: Row, s: Session) {
    exists n :: n in InForce(c, t) && Applies(InForce(c, t)[n], command, s) &&
      InForce(c, t)[n].using.Some? && Eval(InForce(c, t)[n].using.value, t, row, s)
  }

  /** Some applicable policy lets the session write the new row; a policy without WITH CHECK checks
      its USING expression. */
  predicate CheckPasses(c: Catalog, t: Table, command: Command, row: Row, s: Session) {
    exists n :: n in InForce(c, t) && Applies(InForce(c, t)[n], command, s) &&
      var p := InForce(c, t)[n];
      if p.check.Some? then Eval(p.check.value, t, row, s) else p.using.Some? && Eval(p.using.value, t, row, s)
  }

  /** `readsColumns` says that the statement reads the table, in a WHERE or a RETURNING clause, and so
      needs SELECT rights as well. */
  datatype Statement =
    | InsertRows(t: Table, rows: map<Key, Row>)
    | UpdateRows(t: Table, targets: set<Key>, assign: Row -> Row, readsColumns: bool)
    | DeleteRows(t: Table, targets: set<Key>, readsColumns: bool)

  /** The existing rows a statement acts on: the others are silently skipped. */
  function Affected(d: Data, c: Catalog, command: Command, t: Table, targets: set<Key>, readsColumns: bool, s: Session): set<Key> {
    set k | k in Rows(d, t) && k in targets && UsingPasses(c, t, command, Rows(d, t)[k], s) &&
      (readsColumns ==> UsingPasses(c, t, Select, Rows(d, t)[k], s))
  }

  /** Every new row must pass its check; existing rows that a statement may not touch are skipped. */
  predicate Accepted(d: Data, c: Catalog, stmt: Statement, s: Session) {
    match stmt
    case InsertRows(t, rows) =>
      forall k :: k in rows ==> k !in Rows(d, t) && CheckPasses(c, t, Insert, rows[k], s)
    case UpdateRows(t, targets, assign, readsColumns) =>
      forall k :: k in Affected(d, c, Update, t, targets, readsColumns, s) ==>
        && CheckPasses(c, t, Update, assign(Rows(d, t)[k]), s)
        && (readsColumns ==> UsingPasses(c, t, Select, assign(Rows(d, t)[k]), s))
    case DeleteRows(_, _, _) => true
  }

  /** A statement with a new row that fails its check is rejected as a whole. */
  function Execute(d: Data, c: Catalog, stmt: Statement, s: Session): Data {
    if !Accepted(d, c, stmt, s) then d
    else
      match stmt
      case InsertRows(t, rows) => d[t := Rows(d, t) + rows]
      case UpdateRows(t, targets, assign, readsColumns) =>
        var hit := Affected(d, c, Update, t, targets, readsColumns, s);
        d[t := map k | k in Rows(d, t) :: if k in hit then assign(Rows(d, t)[k]) else Rows(d, t)[k]]
      case DeleteRows(t, targets, readsColumns) =>
        d[t := Rows(d, t) - Affected(d, c, Delete, t, targets, readsColumns, s)]
  }

  // ---- What the declared policies guarantee ----

  /** The declared policies of a table, for the roles that exist. */
  function Available(requested: seq<string>, existing: set<string>): seq<string> {
    if requested == [] then []
    else (if requested[0] in existing then [requested[0]] else []) + Available(requested[1..], existing)
  }

  lemma {:induction false} AvailableRoles(requested: seq<string>, existing: set<string>, r: string)
    ensures r in Available(requested, existing) <==> r in requested && r in existing
  {
    if requested != [] {
      AvailableRoles(requested[1..], existing, r);
      assert requested == [requested[0]] + requested[1..];
    }
  }

  function Narrowed(p: Policy, existing: set<string>): Policy {
    p.(roles := Available(p.roles, existing))
  }

  /** `c` holds for every inventoried table exactly its declared policies, each for those of its roles
      that exist and not at all when none does. */
  ghost predicate Installed(c: Catalog, existing: set<string>) {
    forall t: Table :: !t.Other? ==>
      t in c && Policies(t).Some? &&
      (forall n :: n in c[t] ==>
         exists p :: p in Policies(t).value && Available(p.roles, existing) != [] && n == p.name && c[t][n] == Narrowed(p, existing)) &&
      (forall p :: p in Policies(t).value && Available(p.roles, existing) != [] ==>
         p.name in c[t] && c[t][p.name] == Narrowed(p, existing))
  }

  // ---- Who may do what ----

  /** The user's own account, or a row that names the user. */
  predicate IsOwnRow(t: Table, row: Row, s: Session) {
    if t.Users? then s.userId == Some(row.id) else s.userId.Some? && row.userId == s.userId
  }

  /** What users may do with their own rows. */
  predicate OwnRowsOpen(t: Table, command: Command) {
    match command
    case Select =>
      t.Users? || t.LibraryItems? || t.NovelRequests? || t.ReadingHistory? || t.ReadingProgress? || t.UserGlossaryDisplayOverrides?
    case Insert =>
      t.LibraryItems? || t.NovelRequests? || t.ReadingHistory? || t.ReadingProgress? || t.Reviews? || t.UserGlossaryDisplayOverrides?
    case Update => t.Users? || t.ReadingProgress? || t.Reviews? || t.UserGlossaryDisplayOverrides?
    case Delete => t.LibraryItems? || t.Reviews? || t.UserGlossaryDisplayOverrides?
    case All => false
  }

  /** Where everybody, signed in or not, may read the public rows. */
  predicate PublicRowsOpen(t: Table) {
    t.Chapters? || t.Genres? || t.NovelGenres? || t.NovelGlossaryAliases? || t.NovelGlossaryEntries? ||
    t.NovelGlossaryQaFindings? || t.NovelGlossarySourceProvenance? || t.NovelTags? || t.Novels? || t.Tags? || t.Reviews?
  }

  /** What the owner may do with any row; some user tables have no policy for changing or removing. */
  predicate OwnerOpen(t: Table, command: Command) {
    match t
    case AlembicVersion => command.Select?
    case ScheduledCronLog => false
    case LibraryItems => !command.Update?
    case NovelRequests => command.Select? || command.Insert?
    case ReadingHistory => command.Select? || command.Insert?
    case ReadingProgress => !command.Delete?
    case Other(_) => false
    case _ => true
  }

  /** What the migration lets a session do with a row. */
  predicate Permitted(t: Table, command: Command, row: Row, s: Session) {
    || (s.dbRole == "authenticated" &&
        ((s.isOwner && OwnerOpen(t, command)) || (OwnRowsOpen(t, command) && IsOwnRow(t, row, s))))
    || ((s.dbRole == "authenticated" || s.dbRole == "anon") &&
        command.Select? && PublicRowsOpen(t) && (s.isOwner || row.publicRead))
  }

  predicate GrantsUsing(p: Policy, t: Table, command: Command, row: Row, s: Session) {
    Applies(p, command, s) && p.using.Some? && Eval(p.using.value, t, row, s)
  }

  predicate GrantsCheck(p: Policy, t: Table, command: Command, row: Row, s: Session) {
    Applies(p, command, s) && if p.check.Some? then Eval(p.check.value, t, row, s) else p.using.Some? && Eval(p.using.value, t, row, s)
  }

  /** Some policy of a list of at most four grants what USING, or WITH CHECK, is asked for. */
  predicate AnyUsing(ps: seq<Policy>, t: Table, command: Command, row: Row, s: Session) {
    || (|ps| > 0 && GrantsUsing(ps[0], t, command, row, s)) || (|ps| > 1 && GrantsUsing(ps[1], t, command, row, s))
    || (|ps| > 2 && GrantsUsing(ps[2], t, command, row, s)) || (|ps| > 3 && GrantsUsing(ps[3], t, command, row, s))
  }

  predicate AnyCheck(ps: seq<Policy>, t: Table, command: Command, row: Row, s: Session) {
    || (|ps| > 0 && GrantsCheck(ps[0], t, command, row, s)) || (|ps| > 1 && GrantsCheck(ps[1], t, command, row, s))
    || (|ps| > 2 && GrantsCheck(ps[2], t, command, row, s)) || (|ps| > 3 && GrantsCheck(ps[3], t, command, row, s))
  }

  lemma AtMostFour(t: Table)
    requires Policies(t).Some?
    ensures |Policies(t).value| <= 4
  {
    hide TableName, UserRead, UserInsert, UserUpdate, UserDelete, PublicRead;
  }

  /** A declared policy that applies is in force, and what is in force and applies was declared. */
  lemma DeclaredInForce(c: Catalog, existing: set<string>, t: Table, p: Policy, command: Command, s: Session)
    requires Installed(c, existing) && !t.Other? && s.dbRole in existing
    requires p in Policies(t).value && Applies(p, command, s)
    ensures p.name in InForce(c, t) && InForce(c, t)[p.name] == Narrowed(p, existing) && Applies(Narrowed(p, existing), command, s)
  {
    hide Policies, Available;
    AvailableRoles(p.roles, existing, s.dbRole);
  }

  lemma InForceDeclared(c: Catalog, existing: set<string>, t: Table, n: string, command: Command, s: Session) returns (i: nat)
    requires Installed(c, existing) && !t.Other? && n in InForce(c, t) && Applies(InForce(c, t)[n], command, s)
    ensures i < |Policies(t).value| && InForce(c, t)[n] == Narrowed(Policies(t).value[i], existing) && Applies(Policies(t).value[i], command, s)
  {
    hide Policies, Available;
    var p :| p in Policies(t).value && n == p.name && c[t][n] == Narrowed(p, existing);
    AvailableRoles(p.roles, existing, s.dbRole);
    i :| 0 <= i < |Policies(t).value| && Policies(t).value[i] == p;
  }

  lemma InstalledIsDeclared(c: Catalog, existing: set<string>, t: Table)
    requires Installed(c, existing) && !t.Other?
    ensures Policies(t).Some? && |Policies(t).value| <= 4
  {
    AtMostFour(t);
  }

  lemma UsingFromInstalled(c: Catalog, existing: set<string>, t: Table, command: Command, row: Row, s: Session) returns (i: nat)
    requires Installed(c, existing) && !t.Other? && s.dbRole in existing && UsingPasses(c, t, command, row, s)
    ensures Policies(t).Some? && i < |Policies(t).value| && GrantsUsing(Policies(t).value[i], t, command, row, s)
  {
    InstalledIsDeclared(c, existing, t);
    hide Installed, Policies, Eval, Available, Applies, InForce;
    var n :| n in InForce(c, t) && Applies(InForce(c, t)[n], command, s) &&
      InForce(c, t)[n].using.Some? && Eval(InForce(c, t)[n].using.value, t, row, s);
    i := InForceDeclared(c, existing, t, n, command, s);
  }

  lemma UsingFromDeclared(c: Catalog, existing: set<string>, t: Table, command: Command, row: Row, s: Session, i: nat)
    requires Installed(c, existing) && !t.Other? && s.dbRole in existing
    requires Policies(t).Some? && i < |Policies(t).value| && GrantsUsing(Policies(t).value[i], t, command, row, s)
    ensures UsingPasses(c, t, command, row, s)
  {
    hide Installed, Policies, Eval, Available, Applies, InForce;
    DeclaredInForce(c, existing, t, Policies(t).value[i], command, s);
  }

  lemma AnyUsingIff(ps: seq<Policy>, t: Table, command: Command, row: Row, s: Session)
    requires |ps| <= 4
    ensures AnyUsing(ps, t, command, row, s) <==> exists i: nat :: i < |ps| && GrantsUsing(ps[i], t, command, row, s)
  {
    hide GrantsUsing;
  }

  /** The installed policies admit what the declared ones admit. */
  lemma InstalledUsing(c: Catalog, existing: set<string>, t: Table, command: Command, row: Row, s: Session)
    requires Installed(c, existing) && !t.Other? && s.dbRole in existing
    ensures Policies(t).Some?
    ensures UsingPasses(c, t, command, row, s) <==> AnyUsing(Policies(t).value, t, command, row, s)
  {
    hide *;
    InstalledIsDeclared(c, existing, t);
    var ps := Policies(t).value;
    AnyUsingIff(ps, t, command, row, s);
    if UsingPasses(c, t, command, row, s) {
      var i := UsingFromInstalled(c, existing, t, command, row, s);
    }
    if i: nat :| i < |ps| && GrantsUsing(ps[i], t, command, row, s) {
      UsingFromDeclared(c, existing, t, command, row, s, i);
    }
  }

  lemma CheckFromInstalled(c: Catalog, existing: set<string>, t: Table, command: Command, row: Row, s: Session) returns (i: nat)
    requires Installed(c, existing) && !t.Other? && s.dbRole in existing && CheckPasses(c, t, command, row, s)
    ensures Policies(t).Some? && i < |Policies(t).value| && GrantsCheck(Policies(t).value[i], t, command, row, s)
  {
    InstalledIsDeclared(c, existing, t);
    hide Installed, Policies, Eval, Available, Applies, InForce;
    var n :| n in InForce(c, t) && Applies(InForce(c, t)[n], command, s) &&
      var p := InForce(c, t)[n];
      if p.check.Some? then Eval(p.check.value, t, row, s) else p.using.Some? && Eval(p.using.value, t, row, s);
    i := InForceDeclared(c, existing, t, n, command, s);
  }

  lemma CheckFromDeclared(c: Catalog, existing: set<string>, t: Table, command: Command, row: Row, s: Session, i: nat)
    requires Installed(c, existing) && !t.Other? && s.dbRole in existing
    requires Policies(t).Some? && i < |Policies(t).value| && GrantsCheck(Policies(t).value[i], t, command, row, s)
    ensures CheckPasses(c, t, command, row, s)
  {
    hide Installed, Policies, Eval, Available, Applies, InForce;
    DeclaredInForce(c, existing, t, Policies(t).value[i], command, s);
  }

  lemma AnyCheckIff(ps: seq<Policy>, t: Table, command: Command, row: Row, s: Session)
    requires |ps| <= 4
    ensures AnyCheck(ps, t, command, row, s) <==> exists i: nat :: i < |ps| && GrantsCheck(ps[i], t, command, row, s)
  {
    hide GrantsCheck;
  }

  /** The installed policies admit what the declared ones admit. */
  lemma InstalledCheck(c: Catalog, existing: set<string>, t: Table, command: Command, row: Row, s: Session)
    requires Installed(c, existing) && !t.Other? && s.dbRole in existing
    ensures Policies(t).Some?
    ensures CheckPasses(c, t, command, row, s) <==> AnyCheck(Policies(t).value, t, command, row, s)
  {
    hide *;
    InstalledIsDeclared(c, existing, t);
    var ps := Policies(t).value;
    AnyCheckIff(ps, t, command, row, s);
    if CheckPasses(c, t, command, row, s) {
      var i := CheckFromInstalled(c, existing, t, command, row, s);
    }
    if i: nat :| i < |ps| && GrantsCheck(ps[i], t, command, row, s) {
      CheckFromDeclared(c, existing, t, command, row, s, i);
    }
  }

  /** The three expressions of the inventory, spelled out. */
  predicate Holds(e: Option<Expr>, t: Table, row: Row, s: Session) {
    match e
    case None => false
    case Some(IsOwner) => s.isOwner
    case Some(IsMine) => IsOwnRow(t, row, s)
    case Some(IsPublic) => row.publicRead
    case Some(Or(IsOwner, IsMine)) => s.isOwner || IsOwnRow(t, row, s)
    case Some(Or(IsOwner, IsPublic)) => s.isOwner || row.publicRead
    case Some(Or(_, _)) => false
  }

  predicate InInventory(p: Policy) {
    && (p.roles == AUTHENTICATED || p.roles == EVERYONE)
    && (p.using.None? || p.using == OWNER || p.using == OWNER_OR_MINE || p.using == OWNER_OR_PUBLIC)
    && (p.check.None? || p.check == OWNER || p.check == OWNER_OR_MINE)
  }

  predicate RoleHas(p: Policy, s: Session) {
    s.dbRole == "authenticated" || (s.dbRole == "anon" && p.roles == EVERYONE)
  }

  lemma EvalHolds(e: Expr, t: Table, row: Row, s: Session)
    requires Some(e) == OWNER || Some(e) == OWNER_OR_MINE || Some(e) == OWNER_OR_PUBLIC
    ensures Eval(e, t, row, s) <==> Holds(Some(e), t, row, s)
  {
    if e.Or? {
      assert Eval(e.left, t, row, s) <==> s.isOwner;
      assert e.right.IsMine? ==> (Eval(e.right, t, row, s) <==> IsOwnRow(t, row, s));
      assert e.right.IsPublic? ==> (Eval(e.right, t, row, s) <==> row.publicRead);
    }
  }

  /** What one policy of the inventory grants. */
  lemma PolicyGrants(p: Policy, t: Table, command: Command, row: Row, s: Session)
    requires InInventory(p)
    ensures GrantsUsing(p, t, command, row, s) <==>
      (p.command == All || p.command == command) && RoleHas(p, s) && Holds(p.using, t, row, s)
    ensures GrantsCheck(p, t, command, row, s) <==>
      (p.command == All || p.command == command) && RoleHas(p, s) && Holds(if p.check.Some? then p.check else p.using, t, row, s)
  {
    hide Eval, Holds;
    NothingHolds(t, row, s);
    if p.using.Some? { EvalHolds(p.using.value, t, row, s); }
    if p.check.Some? { EvalHolds(p.check.value, t, row, s); }
    assert s.dbRole in p.roles <==> RoleHas(p, s);
  }

  lemma NothingHolds(t: Table, row: Row, s: Session)
    ensures !Holds(None, t, row, s)
  {
  }

  lemma AllGrants(ps: seq<Policy>, t: Table, command: Command, row: Row, s: Session)
    requires forall i :: 0 <= i < |ps| ==> InInventory(ps[i])
    ensures forall i {:trigger ps[i]} :: 0 <= i < |ps| ==>
      (GrantsUsing(ps[i], t, command, row, s) <==>
        (ps[i].command == All || ps[i].command == command) && RoleHas(ps[i], s) && Holds(ps[i].using, t, row, s)) &&
      (GrantsCheck(ps[i], t, command, row, s) <==>
        (ps[i].command == All || ps[i].command == command) && RoleHas(ps[i], s) &&
        Holds(if ps[i].check.Some? then ps[i].check else ps[i].using, t, row, s))
  {
    forall i | 0 <= i < |ps| {
      PolicyGrants(ps[i], t, command, row, s);
    }
  }

  lemma OwnerOnlyPermitted(t: Table, command: Command, row: Row, s: Session)
    requires IsOwnerOnly(t)
    ensures Permitted(t, command, row, s) <==> s.dbRole == "authenticated" && s.isOwner
  {
    hide IsOwnRow;
  }

  lemma PublicReadPermitted(t: Table, command: Command, row: Row, s: Session)
    requires IsPublicRead(t)
    ensures Permitted(t, command, row, s) <==>
      (s.dbRole == "authenticated" && s.isOwner) ||
      ((s.dbRole == "authenticated" || s.dbRole == "anon") && command.Select? && (s.isOwner || row.publicRead))
  {
    hide IsOwnRow;
  }

  lemma OwnerOnlyPolicies(t: Table)
    requires IsOwnerOnly(t)
    ensures Policies(t) == Some([Policy("Owner has full access to " + TableName(t), All, AUTHENTICATED, OWNER, OWNER)])
  {
    hide TableName, UserTablePolicies;
  }

  lemma PublicReadPolicies(t: Table)
    requires IsPublicRead(t)
    ensures Policies(t) == Some([PublicRead(t)] + OwnerWritePolicies(t))
  {
    hide TableName, UserTablePolicies;
  }

  lemma OwnerOnlyUsing(t: Table, command: Command, row: Row, s: Session)
    requires IsOwnerOnly(t) && !command.All? && !command.Insert?
    ensures AnyUsing(Policies(t).value, t, command, row, s) <==> Permitted(t, command, row, s)
  {
    OwnerOnlyPermitted(t, command, row, s);
    OwnerOnlyPolicies(t);
    hide TableName, Eval, GrantsUsing, IsOwnRow, Permitted, Policies, IsOwnerOnly;
    AllGrants(Policies(t).value, t, command, row, s);
  }

  lemma OwnerOnlyCheck(t: Table, command: Command, row: Row, s: Session)
    requires IsOwnerOnly(t) && !command.All? && (command.Insert? || command.Update?)
    ensures AnyCheck(Policies(t).value, t, command, row, s) <==> Permitted(t, command, row, s)
  {
    OwnerOnlyPermitted(t, command, row, s);
    OwnerOnlyPolicies(t);
    hide TableName, Eval, GrantsCheck, IsOwnRow, Permitted, Policies, IsOwnerOnly;
    AllGrants(Policies(t).value, t, command, row, s);
  }

  lemma PublicReadUsing(t: Table, command: Command, row: Row, s: Session)
    requires IsPublicRead(t) && !command.All? && !command.Insert?
    ensures AnyUsing(Policies(t).value, t, command, row, s) <==> Permitted(t, command, row, s)
  {
    PublicReadPermitted(t, command, row, s);
    PublicReadPolicies(t);
    hide TableName, Eval, GrantsUsing, IsOwnRow, Permitted, Policies, IsPublicRead;
    PolicyGrants(PublicRead(t), t, command, row, s);
    PolicyGrants(OwnerWritePolicies(t)[0], t, command, row, s);
    PolicyGrants(OwnerWritePolicies(t)[1], t, command, row, s);
    PolicyGrants(OwnerWritePolicies(t)[2], t, command, row, s);
  }

  lemma PublicReadCheck(t: Table, command: Command, row: Row, s: Session)
    requires IsPublicRead(t) && !command.All? && (command.Insert? || command.Update?)
    ensures AnyCheck(Policies(t).value, t, command, row, s) <==> Permitted(t, command, row, s)
  {
    PublicReadPermitted(t, command, row, s);
    PublicReadPolicies(t);
    hide TableName, Eval, GrantsCheck, IsOwnRow, Permitted, Policies, IsPublicRead;
    PolicyGrants(PublicRead(t), t, command, row, s);
    PolicyGrants(OwnerWritePolicies(t)[0], t, command, row, s);
    PolicyGrants(OwnerWritePolicies(t)[1], t, command, row, s);
    PolicyGrants(OwnerWritePolicies(t)[2], t, command, row, s);
  }

  lemma UserTablePoliciesOf(t: Table)
    requires IsUserTable(t)
    ensures Policies(t) == Some(UserTablePolicies(t))
  {
    hide UserTablePolicies;
  }

  lemma AccountUsing(t: Table, command: Command, row: Row, s: Session)
    requires t.Users? && !command.All? && !command.Insert?
    ensures AnyUsing(UserTablePolicies(t), t, command, row, s) <==> Permitted(t, command, row, s)
  {
    hide TableName, Eval, GrantsUsing, IsOwnRow;
    AllGrants(UserTablePolicies(t), t, command, row, s);
  }

  lemma ReviewUsing(t: Table, command: Command, row: Row, s: Session)
    requires t.Reviews? && !command.All? && !command.Insert?
    ensures AnyUsing(UserTablePolicies(t), t, command, row, s) <==> Permitted(t, command, row, s)
  {
    hide TableName, Eval, GrantsUsing, IsOwnRow;
    AllGrants(UserTablePolicies(t), t, command, row, s);
  }

  lemma ListTableUsing(t: Table, command: Command, row: Row, s: Session)
    requires (t.LibraryItems? || t.NovelRequests? || t.ReadingHistory?) && !command.All? && !command.Insert?
    ensures AnyUsing(UserTablePolicies(t), t, command, row, s) <==> Permitted(t, command, row, s)
  {
    hide TableName, Eval, GrantsUsing, IsOwnRow;
    AllGrants(UserTablePolicies(t), t, command, row, s);
  }

  lemma StateTableUsing(t: Table, command: Command, row: Row, s: Session)
    requires (t.ReadingProgress? || t.UserGlossaryDisplayOverrides?) && !command.All? && !command.Insert?
    ensures AnyUsing(UserTablePolicies(t), t, command, row, s) <==> Permitted(t, command, row, s)
  {
    hide TableName, Eval, GrantsUsing, IsOwnRow;
    AllGrants(UserTablePolicies(t), t, command, row, s);
  }

  lemma UserTableUsing(t: Table, command: Command, row: Row, s: Session)
    requires IsUserTable(t) && !command.All? && !command.Insert?
    ensures AnyUsing(Policies(t).value, t, command, row, s) <==> Permitted(t, command, row, s)
  {
    UserTablePoliciesOf(t);
    hide Policies, UserTablePolicies, AnyUsing, Permitted;
    if t.Users? {
      AccountUsing(t, command, row, s);
    } else if t.Reviews? {
      ReviewUsing(t, command, row, s);
    } else if t.LibraryItems? || t.NovelRequests? || t.ReadingHistory? {
      ListTableUsing(t, command, row, s);
    } else {
      StateTableUsing(t, command, row, s);
    }
  }

  lemma AccountCheck(t: Table, command: Command, row: Row, s: Session)
    requires t.Users? && !command.All? && (command.Insert? || command.Update?)
    ensures AnyCheck(UserTablePolicies(t), t, command, row, s) <==> Permitted(t, command, row, s)
  {
    hide TableName, Eval, GrantsCheck, IsOwnRow;
    AllGrants(UserTablePolicies(t), t, command, row, s);
  }

  lemma ReviewCheck(t: Table, command: Command, row: Row, s: Session)
    requires t.Reviews? && !command.All? && (command.Insert? || command.Update?)
    ensures AnyCheck(UserTablePolicies(t), t, command, row, s) <==> Permitted(t, command, row, s)
  {
    hide TableName, Eval, GrantsCheck, IsOwnRow;
    AllGrants(UserTablePolicies(t), t, command, row, s);
  }

  lemma ListTableCheck(t: Table, command: Command, row: Row, s: Session)
    requires (t.LibraryItems? || t.NovelRequests? || t.ReadingHistory?) && !command.All? && (command.Insert? || command.Update?)
    ensures AnyCheck(UserTablePolicies(t), t, command, row, s) <==> Permitted(t, command, row, s)
  {
    hide TableName, Eval, GrantsCheck, IsOwnRow;
    AllGrants(UserTablePolicies(t), t, command, row, s);
  }

  lemma StateTableCheck(t: Table, command: Command, row: Row, s: Session)
    requires (t.ReadingProgress? || t.UserGlossaryDisplayOverrides?) && !command.All? && (command.Insert? || command.Update?)
    ensures AnyCheck(UserTablePolicies(t), t, command, row, s) <==> Permitted(t, command, row, s)
  {
    hide TableName, Eval, GrantsCheck, IsOwnRow;
    AllGrants(UserTablePolicies(t), t, command, row, s);
  }

  lemma UserTableCheck(t: Table, command: Command, row: Row, s: Session)
    requires IsUserTable(t) && !command.All? && (command.Insert? || command.Update?)
    ensures AnyCheck(Policies(t).value, t, command, row, s) <==> Permitted(t, command, row, s)
  {
    UserTablePoliciesOf(t);
    hide Policies, UserTablePolicies, AnyCheck, Permitted;
    if t.Users? {
      AccountCheck(t, command, row, s);
    } else if t.Reviews? {
      ReviewCheck(t, command, row, s);
    } else if t.LibraryItems? || t.NovelRequests? || t.ReadingHistory? {
      ListTableCheck(t, command, row, s);
    } else {
      StateTableCheck(t, command, row, s);
    }
  }

  lemma RestOfUsing(t: Table, command: Command, row: Row, s: Session)
    requires (t.AlembicVersion? || t.ScheduledCronLog?) && !command.All? && !command.Insert?
    ensures AnyUsing(Policies(t).value, t, command, row, s) <==> Permitted(t, command, row, s)
  {
    hide TableName, Eval, GrantsUsing, IsOwnRow;
    AllGrants(Policies(t).value, t, command, row, s);
  }

  lemma RestOfCheck(t: Table, command: Command, row: Row, s: Session)
    requires (t.AlembicVersion? || t.ScheduledCronLog?) && !command.All? && (command.Insert? || command.Update?)
    ensures AnyCheck(Policies(t).value, t, command, row, s) <==> Permitted(t, command, row, s)
  {
    hide TableName, Eval, GrantsCheck, IsOwnRow;
    AllGrants(Policies(t).value, t, command, row, s);
  }

  /** Under the installed policies a session may read, change or remove an existing row, and write a new
      one, exactly when it is permitted. */
  lemma PermittedIff(c: Catalog, existing: set<string>, t: Table, command: Command, row: Row, s: Session)
    requires Installed(c, existing) && !t.Other? && s.dbRole in existing
    ensures command.Select? || command.Update? || command.Delete? ==>
      (UsingPasses(c, t, command, row, s) <==> Permitted(t, command, row, s))
    ensures command.Insert? || command.Update? ==>
      (CheckPasses(c, t, command, row, s) <==> Permitted(t, command, row, s))
  {
    InstalledUsing(c, existing, t, command, row, s);
    InstalledCheck(c, existing, t, command, row, s);
    hide Installed, AnyUsing, AnyCheck, Permitted, UsingPasses, CheckPasses, Policies;
    if command.Select? || command.Update? || command.Delete? {
      if IsOwnerOnly(t) { OwnerOnlyUsing(t, command, row, s); }
      else if IsPublicRead(t) { PublicReadUsing(t, command, row, s); }
      else if IsUserTable(t) { UserTableUsing(t, command, row, s); }
      else { RestOfUsing(t, command, row, s); }
    }
    if command.Insert? || command.Update? {
      if IsOwnerOnly(t) { OwnerOnlyCheck(t, command, row, s); }
      else if IsPublicRead(t) { PublicReadCheck(t, command, row, s); }
      else if IsUserTable(t) { UserTableCheck(t, command, row, s); }
      else { RestOfCheck(t, command, row, s); }
    }
  }

  /** Row security lets through exactly what is permitted, for every session, table and row. */
  ghost predicate Enforces(c: Catalog, existing: set<string>) {
    forall t: Table, command: Command, row: Row, s: Session :: !t.Other? && s.dbRole in existing ==>
      && (command.Select? || command.Update? || command.Delete? ==>
            (UsingPasses(c, t, command, row, s) <==> Permitted(t, command, row, s)))
      && (command.Insert? || command.Update? ==>
            (CheckPasses(c, t, command, row, s) <==> Permitted(t, command, row, s)))
  }

  lemma InstalledEnforces(c: Catalog, existing: set<string>)
    requires Installed(c, existing)
    ensures Enforces(c, existing)
  {
    hide Installed, UsingPasses, CheckPasses, Permitted;
    forall t: Table, command: Command, row: Row, s: Session | !t.Other? && s.dbRole in existing {
      PermittedIff(c, existing, t, command, row, s);
    }
  }

  /** What a policy that admits writes demands of a session that is not the owner. */
  ghost predicate GuardsWrites(p: Policy) {
    p.command != Select ==>
      && "anon" !in p.roles
      && (p.using.Some? ==> p.using == OWNER || p.using == OWNER_OR_MINE)
      && (p.check.Some? ==> p.check == OWNER || p.check == OWNER_OR_MINE)
  }

  lemma InventoryGuardsWrites(t: Table, p: Policy)
    requires Policies(t).Some? && p in Policies(t).value
    ensures GuardsWrites(p)
    ensures !IsUserTable(t) && p.command != Select ==> p.using != OWNER_OR_MINE && p.check != OWNER_OR_MINE
    ensures t == Users && p.command in {All, Insert, Delete} ==> p.using != OWNER_OR_MINE && p.check != OWNER_OR_MINE
  {
    hide TableName;
    if IsUserTable(t) {
      UserTableGuardsWrites(t, p);
    } else if IsPublicRead(t) {
      OwnerWritesGuarded(t, p);
    }
  }

  lemma UserTableGuardsWrites(t: Table, p: Policy)
    requires IsUserTable(t) && p in UserTablePolicies(t)
    ensures GuardsWrites(p)
    ensures t == Users && p.command in {All, Insert, Delete} ==> p.using != OWNER_OR_MINE && p.check != OWNER_OR_MINE
  {
    hide TableName;
  }

  lemma OwnerWritesGuarded(t: Table, p: Policy)
    requires p in [PublicRead(t)] + OwnerWritePolicies(t)
    ensures GuardsWrites(p) && (p.command != Select ==> p.using != OWNER_OR_MINE && p.check != OWNER_OR_MINE)
  {
    hide TableName;
    assert p == PublicRead(t) || p in OwnerWritePolicies(t);
  }

  lemma NarrowedGuardsWrites(p: Policy, existing: set<string>)
    requires GuardsWrites(p)
    ensures GuardsWrites(Narrowed(p, existing))
  {
    AvailableRoles(p.roles, existing, "anon");
  }

  lemma InstalledGuardsWrites(c: Catalog, existing: set<string>, t: Table, n: string)
    requires Installed(c, existing) && !t.Other? && n in InForce(c, t)
    ensures GuardsWrites(c[t][n])
    ensures !IsUserTable(t) && c[t][n].command != Select ==> c[t][n].using != OWNER_OR_MINE && c[t][n].check != OWNER_OR_MINE
    ensures t == Users && c[t][n].command in {All, Insert, Delete} ==> c[t][n].using != OWNER_OR_MINE && c[t][n].check != OWNER_OR_MINE
  {
    hide Policies, TableName, Available, GuardsWrites;
    var p :| p in Policies(t).value && n == p.name && c[t][n] == Narrowed(p, existing);
    InventoryGuardsWrites(t, p);
    NarrowedGuardsWrites(p, existing);
  }

  /** A session that is not the owner passes a write policy only for its own rows, only on the user
      tables, and only as the authenticated role. */
  lemma WritesNeedOwnership(c: Catalog, existing: set<string>, t: Table, command: Command, row: Row, s: Session)
    requires Installed(c, existing) && !t.Other? && !s.isOwner
    requires command in {Insert, Update, Delete}
    requires UsingPasses(c, t, command, row, s) || CheckPasses(c, t, command, row, s)
    ensures Mine(t, row, s) && IsUserTable(t) && s.dbRole != "anon"
  {
    hide Installed, Policies, TableName, Mine, Eval;
    if UsingPasses(c, t, command, row, s) {
      var n :| n in InForce(c, t) && Applies(InForce(c, t)[n], command, s) &&
        InForce(c, t)[n].using.Some? && Eval(InForce(c, t)[n].using.value, t, row, s);
      InstalledGuardsWrites(c, existing, t, n);
      OnlyMineEvaluates(InForce(c, t)[n].using.value, t, row, s);
    } else {
      var n :| n in InForce(c, t) && Applies(InForce(c, t)[n], command, s) &&
        var p := InForce(c, t)[n];
        if p.check.Some? then Eval(p.check.value, t, row, s) else p.using.Some? && Eval(p.using.value, t, row, s);
      InstalledGuardsWrites(c, existing, t, n);
      OnlyMineEvaluates(InForce(c, t)[n].check.value, t, row, s);
    }
  }

  lemma OnlyMineEvaluates(e: Expr, t: Table, row: Row, s: Session)
    requires !s.isOwner && Eval(e, t, row, s) && (Some(e) == OWNER || Some(e) == OWNER_OR_MINE)
    ensures Mine(t, row, s) && Some(e) == OWNER_OR_MINE
  {
  }

  /** Every row that is not the session's own is where it was, as it was, and no other such row has
      appeared; outside the user tables, and for anon, nothing has changed at all. */
  ghost predicate OnlyMineChanged(before: map<Key, Row>, after: map<Key, Row>, t: Table, s: Session) {
    && (forall k :: k in before && !Mine(t, before[k], s) ==> k in after && after[k] == before[k])
    && (forall k :: k in after && !Mine(t, after[k], s) ==> k in before && before[k] == after[k])
    && (!IsUserTable(t) || s.dbRole == "anon" ==> after == before)
  }

  /** One statement of a session that is not the owner, on any table of the inventory. */
  lemma StatementChangesOnlyMine(d: Data, c: Catalog, existing: set<string>, stmt: Statement, s: Session, t: Table)
    requires Installed(c, existing) && !s.isOwner && !t.Other?
    ensures OnlyMineChanged(Rows(d, t), Rows(Execute(d, c, stmt, s), t), t, s)
  {
    hide Installed, Policies, IsUserTable;
    if t == stmt.t {
      match stmt
      case InsertRows(_, rows) => InsertChangesOnlyMine(d, c, existing, t, rows, s);
      case UpdateRows(_, targets, assign, readsColumns) =>
        UpdateChangesOnlyMine(d, c, existing, t, targets, assign, readsColumns, s);
      case DeleteRows(_, targets, readsColumns) => DeleteChangesOnlyMine(d, c, existing, t, targets, readsColumns, s);
    }
  }

  lemma AddedRowsAreMine(before: map<Key, Row>, rows: map<Key, Row>, t: Table, s: Session)
    requires forall k :: k in rows ==> k !in before && Mine(t, rows[k], s) && IsUserTable(t) && s.dbRole != "anon"
    ensures OnlyMineChanged(before, before + rows, t, s)
  {
    hide Mine, IsUserTable;
    if rows == map[] {
      assert before + rows == before;
    } else {
      var k :| k in rows;
    }
  }

  lemma InsertChangesOnlyMine(d: Data, c: Catalog, existing: set<string>, t: Table, rows: map<Key, Row>, s: Session)
    requires Installed(c, existing) && !s.isOwner && !t.Other?
    ensures OnlyMineChanged(Rows(d, t), Rows(Execute(d, c, InsertRows(t, rows), s), t), t, s)
  {
    hide Installed, Policies, IsUserTable, CheckPasses, Mine;
    if forall k :: k in rows ==> k !in Rows(d, t) && CheckPasses(c, t, Insert, rows[k], s) {
      forall k | k in rows ensures Mine(t, rows[k], s) && IsUserTable(t) && s.dbRole != "anon" {
        WritesNeedOwnership(c, existing, t, Insert, rows[k], s);
      }
      AddedRowsAreMine(Rows(d, t), rows, t, s);
    }
  }

  lemma UpdateChangesOnlyMine(
      d: Data, c: Catalog, existing: set<string>, t: Table, targets: set<Key>, assign: Row -> Row, readsColumns: bool, s: Session)
    requires Installed(c, existing) && !s.isOwner && !t.Other?
    ensures OnlyMineChanged(Rows(d, t), Rows(Execute(d, c, UpdateRows(t, targets, assign, readsColumns), s), t), t, s)
  {
    hide Installed, Policies, IsUserTable;
    var hit := Affected(d, c, Update, t, targets, readsColumns, s);
    forall k | k in hit
      ensures Mine(t, Rows(d, t)[k], s) && IsUserTable(t) && s.dbRole != "anon"
      ensures CheckPasses(c, t, Update, assign(Rows(d, t)[k]), s) ==> Mine(t, assign(Rows(d, t)[k]), s)
    {
      hide Installed, CheckPasses;
      WritesNeedOwnership(c, existing, t, Update, Rows(d, t)[k], s);
      if CheckPasses(c, t, Update, assign(Rows(d, t)[k]), s) {
        WritesNeedOwnership(c, existing, t, Update, assign(Rows(d, t)[k]), s);
      }
    }
    hide CheckPasses, UsingPasses, Affected, Mine, Installed;
  }

  lemma DeleteChangesOnlyMine(
      d: Data, c: Catalog, existing: set<string>, t: Table, targets: set<Key>, readsColumns: bool, s: Session)
    requires Installed(c, existing) && !s.isOwner && !t.Other?
    ensures OnlyMineChanged(Rows(d, t), Rows(Execute(d, c, DeleteRows(t, targets, readsColumns), s), t), t, s)
  {
    hide Installed, Policies, IsUserTable;
    var hit := Affected(d, c, Delete, t, targets, readsColumns, s);
    forall k | k in hit ensures Mine(t, Rows(d, t)[k], s) && IsUserTable(t) && s.dbRole != "anon" {
      hide Installed;
      WritesNeedOwnership(c, existing, t, Delete, Rows(d, t)[k], s);
    }
    var after := Rows(Execute(d, c, DeleteRows(t, targets, readsColumns), s), t);
    assert after == Rows(d, t) - hit && forall k :: k in hit ==> k in Rows(d, t);
    hide Execute, Affected, Mine;
    if hit == {} {
      assert after == Rows(d, t);
    } else {
      var k :| k in hit;
    }
  }

  /** The rows a statement may act on: those it is permitted to change or remove, and to read if it reads. */
  predicate MayTouch(t: Table, command: Command, row: Row, readsColumns: bool, s: Session) {
    Permitted(t, command, row, s) && (readsColumns ==> Permitted(t, Select, row, s))
  }

  function Touchable(rows: map<Key, Row>, t: Table, command: Command, targets: set<Key>, readsColumns: bool, s: Session): set<Key> {
    set k | k in rows && k in targets && MayTouch(t, command, rows[k], readsColumns, s)
  }

  lemma AffectedIff(d: Data, c: Catalog, existing: set<string>, command: Command, t: Table, targets: set<Key>, readsColumns: bool, s: Session)
    requires Installed(c, existing) && !t.Other? && s.dbRole in existing && (command.Update? || command.Delete?)
    ensures Affected(d, c, command, t, targets, readsColumns, s) == Touchable(Rows(d, t), t, command, targets, readsColumns, s)
  {
    hide Installed, UsingPasses, CheckPasses, Permitted;
    forall k | k in Rows(d, t)
      ensures UsingPasses(c, t, command, Rows(d, t)[k], s) <==> Permitted(t, command, Rows(d, t)[k], s)
      ensures UsingPasses(c, t, Select, Rows(d, t)[k], s) <==> Permitted(t, Select, Rows(d, t)[k], s)
    {
      PermittedIff(c, existing, t, command, Rows(d, t)[k], s);
      PermittedIff(c, existing, t, Select, Rows(d, t)[k], s);
    }
  }

  /** An insert adds its rows, all of them or none. */
  lemma InsertEffect(d: Data, c: Catalog, existing: set<string>, t: Table, rows: map<Key, Row>, s: Session)
    requires Installed(c, existing) && !t.Other? && s.dbRole in existing
    ensures Execute(d, c, InsertRows(t, rows), s) ==
      if forall k :: k in rows ==> k !in Rows(d, t) && Permitted(t, Insert, rows[k], s) then d[t := Rows(d, t) + rows] else d
  {
    hide Installed, UsingPasses, CheckPasses, Permitted;
    forall k | k in rows ensures CheckPasses(c, t, Insert, rows[k], s) <==> Permitted(t, Insert, rows[k], s) {
      PermittedIff(c, existing, t, Insert, rows[k], s);
    }
  }

  /** A delete removes the rows it may touch and skips the others. */
  lemma DeleteEffect(d: Data, c: Catalog, existing: set<string>, t: Table, targets: set<Key>, readsColumns: bool, s: Session)
    requires Installed(c, existing) && !t.Other? && s.dbRole in existing
    ensures Execute(d, c, DeleteRows(t, targets, readsColumns), s) ==
      d[t := Rows(d, t) - Touchable(Rows(d, t), t, Delete, targets, readsColumns, s)]
  {
    AffectedIff(d, c, existing, Delete, t, targets, readsColumns, s);
    hide Installed, Affected, MayTouch;
  }

  /** An update changes the rows it may touch and skips the others; it fails as a whole when it may not touch
      a row as changed. */
  lemma UpdateEffect(
      d: Data, c: Catalog, existing: set<string>, t: Table, targets: set<Key>, assign: Row -> Row, readsColumns: bool, s: Session)
    requires Installed(c, existing) && !t.Other? && s.dbRole in existing
    ensures var before, after := Rows(d, t), Execute(d, c, UpdateRows(t, targets, assign, readsColumns), s);
      if forall k :: k in before && k in targets && MayTouch(t, Update, before[k], readsColumns, s) ==>
           MayTouch(t, Update, assign(before[k]), readsColumns, s)
      then
        Rows(after, t).Keys == before.Keys && (forall u :: u != t ==> Rows(after, u) == Rows(d, u)) &&
        forall k :: k in before ==>
          Rows(after, t)[k] == if k in targets && MayTouch(t, Update, before[k], readsColumns, s) then assign(before[k]) else before[k]
      else after == d
  {
    hide Installed, UsingPasses, CheckPasses, Permitted;
    var before := Rows(d, t);
    var hit := Affected(d, c, Update, t, targets, readsColumns, s);
    AffectedIff(d, c, existing, Update, t, targets, readsColumns, s);
    forall k | k in before
      ensures CheckPasses(c, t, Update, assign(before[k]), s) <==> Permitted(t, Update, assign(before[k]), s)
      ensures UsingPasses(c, t, Select, assign(before[k]), s) <==> Permitted(t, Select, assign(before[k]), s)
    {
      PermittedIff(c, existing, t, Update, assign(before[k]), s);
      PermittedIff(c, existing, t, Select, assign(before[k]), s);
    }
    hide Affected;
    assert Accepted(d, c, UpdateRows(t, targets, assign, readsColumns), s) <==>
      forall k :: k in hit ==> MayTouch(t, Update, assign(before[k]), readsColumns, s);
    assert forall k :: k in hit <==> k in before && k in targets && MayTouch(t, Update, before[k], readsColumns, s);
    hide MayTouch, Accepted;
  }

  // ---- Who the session is ----

  /** The account of a subject; without a subject, as for `anon`, there is none. */
  predicate IsAccount(row: Row, subject: Option<string>) {
    subject.Some? && row.subject == subject
  }

  /** What `is_owner()` returns. */
  predicate OwnerAccount(users: map<Key, Row>, subject: Option<string>) {
    exists k :: k in users && IsAccount(users[k], subject) && users[k].role == "owner"
  }

  function AccountIds(users: map<Key, Row>, subject: Option<string>): set<int> {
    set k | k in users && IsAccount(users[k], subject) :: users[k].id
  }

  /** `s` holds what `is_owner()` and `current_user_id()` return for this subject; where several
      accounts share the subject, the latter may return any one of their ids. */
  ghost predicate IdentityOf(users: map<Key, Row>, subject: Option<string>, s: Session) {
    && (s.isOwner <==> OwnerAccount(users, subject))
    && (s.userId.Some? ==> s.userId.value in AccountIds(users, subject))
    && (s.userId.None? ==> AccountIds(users, subject) == {})
  }

  /** An accepted UPDATE of users that leaves an own row with this subject and the role of owner. */
  predicate Promotes(d: Data, c: Catalog, stmt: Statement, subject: Option<string>, s: Session) {
    stmt.UpdateRows? && stmt.t == Users && Accepted(d, c, stmt, s) &&
    exists k :: k in Affected(d, c, Update, Users, stmt.targets, stmt.readsColumns, s) &&
      IsAccount(stmt.assign(Rows(d, Users)[k]), subject) && stmt.assign(Rows(d, Users)[k]).role == "owner"
  }

  lemma UserAccountsNotAdded(c: Catalog, existing: set<string>, command: Command, row: Row, s: Session)
    requires Installed(c, existing) && !s.isOwner && command in {Insert, Delete}
    ensures !UsingPasses(c, Users, command, row, s) && !CheckPasses(c, Users, command, row, s)
  {
    hide Installed, Eval;
    if UsingPasses(c, Users, command, row, s) {
      var n :| n in InForce(c, Users) && Applies(InForce(c, Users)[n], command, s) &&
        InForce(c, Users)[n].using.Some? && Eval(InForce(c, Users)[n].using.value, Users, row, s);
      InstalledGuardsWrites(c, existing, Users, n);
      OnlyMineEvaluates(InForce(c, Users)[n].using.value, Users, row, s);
    } else if CheckPasses(c, Users, command, row, s) {
      var n :| n in InForce(c, Users) && Applies(InForce(c, Users)[n], command, s) &&
        var p := InForce(c, Users)[n];
        if p.check.Some? then Eval(p.check.value, Users, row, s) else p.using.Some? && Eval(p.using.value, Users, row, s);
      InstalledGuardsWrites(c, existing, Users, n);
      OnlyMineEvaluates(InForce(c, Users)[n].check.value, Users, row, s);
    }
  }

  /** What a session that is not the owner can do to users: update own rows, which keep their id. */
  lemma UsersAfter(d: Data, c: Catalog, existing: set<string>, stmt: Statement, s: Session)
    requires Installed(c, existing) && !s.isOwner
    ensures var before, after := Rows(d, Users), Rows(Execute(d, c, stmt, s), Users);
      if stmt.UpdateRows? && stmt.t == Users && Accepted(d, c, stmt, s) then
        var hit := Affected(d, c, Update, Users, stmt.targets, stmt.readsColumns, s);
        after.Keys == before.Keys && hit <= before.Keys &&
        forall k :: k in before ==>
          if k in hit then after[k] == stmt.assign(before[k]) && Mine(Users, before[k], s) && Mine(Users, after[k], s)
          else after[k] == before[k]
      else after == before
  {
    hide Installed, UsingPasses, CheckPasses, Mine;
    var before := Rows(d, Users);
    if stmt.t == Users && Accepted(d, c, stmt, s) {
      match stmt
      case InsertRows(_, rows) =>
        forall k | k in rows ensures false {
          UserAccountsNotAdded(c, existing, Insert, rows[k], s);
        }
        assert before + rows == before;
      case UpdateRows(_, targets, assign, readsColumns) =>
        forall k | k in Affected(d, c, Update, Users, targets, readsColumns, s)
          ensures Mine(Users, before[k], s) && Mine(Users, assign(before[k]), s)
        {
          WritesNeedOwnership(c, existing, Users, Update, before[k], s);
          WritesNeedOwnership(c, existing, Users, Update, assign(before[k]), s);
        }
      case DeleteRows(_, targets, readsColumns) =>
        forall k | k in Affected(d, c, Delete, Users, targets, readsColumns, s) ensures false {
          UserAccountsNotAdded(c, existing, Delete, before[k], s);
        }
        assert before - Affected(d, c, Delete, Users, targets, readsColumns, s) == before;
    }
  }

  /** After one statement of a session that is not the owner, its subject is the owner exactly when the
      statement is an accepted UPDATE of users that writes that role into an own row. */
  lemma OwnerAfterIff(d: Data, c: Catalog, existing: set<string>, stmt: Statement, subject: Option<string>, s: Session)
    requires Installed(c, existing) && !s.isOwner && IdentityOf(Rows(d, Users), subject, s)
    ensures OwnerAccount(Rows(Execute(d, c, stmt, s), Users), subject) <==> Promotes(d, c, stmt, subject, s)
  {
    UsersAfter(d, c, existing, stmt, s);
    hide Installed, Execute, Accepted, Affected, Mine, IsAccount;
  }

  /** No statement of such a session gives its subject a further account id. */
  lemma AccountIdsShrink(d: Data, c: Catalog, existing: set<string>, stmt: Statement, subject: Option<string>, s: Session)
    requires Installed(c, existing) && !s.isOwner && IdentityOf(Rows(d, Users), subject, s)
    ensures AccountIds(Rows(Execute(d, c, stmt, s), Users), subject) <= AccountIds(Rows(d, Users), subject)
  {
    UsersAfter(d, c, existing, stmt, s);
    hide Installed, Execute, Accepted, Affected, IsAccount;
  }

  // ---- Whole runs ----

  /** A statement with the session in which it runs. */
  datatype Turn = Turn(stmt: Statement, session: Session)

  /** The primary key, and the unique index on the role of owner that a later revision adds. */
  ghost predicate SingleOwner(users: map<Key, Row>) {
    && (forall a, b :: a in users && b in users && users[a].id == users[b].id ==> a == b)
    && (forall a, b :: a in users && b in users && users[a].role == users[b].role == "owner" ==> a == b)
  }

  /** One statement; with the index in place a statement that violates it is rejected as well. */
  ghost function Next(d: Data, c: Catalog, turn: Turn, indexed: bool): Data {
    var d' := Execute(d, c, turn.stmt, turn.session);
    if indexed && !SingleOwner(Rows(d', Users)) then d else d'
  }

  ghost function Run(d: Data, c: Catalog, turns: seq<Turn>, indexed: bool): Data {
    if turns == [] then d
    else Next(Run(d, c, turns[..|turns| - 1], indexed), c, turns[|turns| - 1], indexed)
  }

  /** Before every statement the session functions are evaluated on the users table as it then is. */
  ghost predicate SessionsOf(d: Data, c: Catalog, turns: seq<Turn>, indexed: bool, subject: Option<string>, dbRole: string) {
    forall i :: 0 <= i < |turns| ==>
      turns[i].session.dbRole == dbRole &&
      IdentityOf(Rows(Run(d, c, turns[..i], indexed), Users), subject, turns[i].session)
  }

  ghost predicate PromotesAt(d: Data, c: Catalog, turns: seq<Turn>, indexed: bool, subject: Option<string>, i: nat)
    requires i < |turns|
  {
    Promotes(Run(d, c, turns[..i], indexed), c, turns[i].stmt, subject, turns[i].session)
  }

  ghost predicate OwnerAt(d: Data, c: Catalog, turns: seq<Turn>, indexed: bool, subject: Option<string>, i: nat)
    requires i <= |turns|
  {
    OwnerAccount(Rows(Run(d, c, turns[..i], indexed), Users), subject)
  }

  predicate Ours(t: Table, row: Row, ids: set<int>) {
    if t == Users then row.id in ids else row.userId.Some? && row.userId.value in ids
  }

  /** Every row of other users is where it was, as it was, and no other such row has appeared; outside
      the user tables, and for anon, nothing has changed at all. */
  ghost predicate OnlyOursChanged(before: map<Key, Row>, after: map<Key, Row>, t: Table, ids: set<int>, dbRole: string) {
    && (forall k :: k in before && !Ours(t, before[k], ids) ==> k in after && after[k] == before[k])
    && (forall k :: k in after && !Ours(t, after[k], ids) ==> k in before && before[k] == after[k])
    && (!IsUserTable(t) || dbRole == "anon" ==> after == before)
  }

  lemma SessionsOfPrefix(d: Data, c: Catalog, turns: seq<Turn>, indexed: bool, subject: Option<string>, dbRole: string)
    requires turns != [] && SessionsOf(d, c, turns, indexed, subject, dbRole)
    ensures SessionsOf(d, c, turns[..|turns| - 1], indexed, subject, dbRole)
  {
    hide IdentityOf, Run;
    var before := turns[..|turns| - 1];
    forall i | 0 <= i < |before|
      ensures before[i].session.dbRole == dbRole && IdentityOf(Rows(Run(d, c, before[..i], indexed), Users), subject, before[i].session)
    {
      assert before[..i] == turns[..i] && before[i] == turns[i];
    }
  }

  lemma MineIsOurs(before: map<Key, Row>, after: map<Key, Row>, t: Table, ids: set<int>, s: Session)
    requires OnlyMineChanged(before, after, t, s) && (s.userId.Some? ==> s.userId.value in ids)
    ensures OnlyOursChanged(before, after, t, ids, s.dbRole)
  {
    hide IsUserTable;
  }

  lemma NothingChanged(rows: map<Key, Row>, t: Table, ids: set<int>, dbRole: string)
    ensures OnlyOursChanged(rows, rows, t, ids, dbRole)
  {
  }

  lemma OursTwice(before: map<Key, Row>, mid: map<Key, Row>, after: map<Key, Row>, t: Table, ids: set<int>, dbRole: string)
    requires OnlyOursChanged(before, mid, t, ids, dbRole) && OnlyOursChanged(mid, after, t, ids, dbRole)
    ensures OnlyOursChanged(before, after, t, ids, dbRole)
  {
    hide IsUserTable, Ours;
  }

  /** One turn of a session that is not the owner. */
  lemma TurnChangesOnlyOurs(d: Data, c: Catalog, existing: set<string>, turn: Turn, indexed: bool, subject: Option<string>, t: Table)
    requires Installed(c, existing) && !turn.session.isOwner && !t.Other? && IdentityOf(Rows(d, Users), subject, turn.session)
    ensures var ids := AccountIds(Rows(d, Users), subject);
      OnlyOursChanged(Rows(d, t), Rows(Next(d, c, turn, indexed), t), t, ids, turn.session.dbRole) &&
      AccountIds(Rows(Next(d, c, turn, indexed), Users), subject) <= ids
  {
    hide Installed, Execute, OnlyMineChanged, OnlyOursChanged, AccountIds, SingleOwner, OwnerAccount;
    StatementChangesOnlyMine(d, c, existing, turn.stmt, turn.session, t);
    AccountIdsShrink(d, c, existing, turn.stmt, subject, turn.session);
    NothingChanged(Rows(d, t), t, AccountIds(Rows(d, Users), subject), turn.session.dbRole);
    MineIsOurs(Rows(d, t), Rows(Execute(d, c, turn.stmt, turn.session), t), t, AccountIds(Rows(d, Users), subject), turn.session);
  }

  /** As long as the subject is not the owner when a statement runs, the run leaves everything as it was
      that does not belong to one of the subject's accounts. */
  lemma {:induction false} PlainRunChangesOnlyOurs(
      d: Data, c: Catalog, existing: set<string>, turns: seq<Turn>, indexed: bool, subject: Option<string>, dbRole: string, t: Table)
    requires Installed(c, existing) && SessionsOf(d, c, turns, indexed, subject, dbRole) && !t.Other?
    requires forall i :: 0 <= i < |turns| ==> !OwnerAt(d, c, turns, indexed, subject, i)
    ensures var after := Run(d, c, turns, indexed); var ids := AccountIds(Rows(d, Users), subject);
      OnlyOursChanged(Rows(d, t), Rows(after, t), t, ids, dbRole) && AccountIds(Rows(after, Users), subject) <= ids
  {
    if turns != [] {
      hide Installed, Next, OnlyOursChanged, AccountIds, OwnerAccount;
      var last := |turns| - 1;
      var before := turns[..last];
      SessionsOfPrefix(d, c, turns, indexed, subject, dbRole);
      forall i | 0 <= i < |before| ensures !OwnerAt(d, c, before, indexed, subject, i) {
        assert before[..i] == turns[..i] && !OwnerAt(d, c, turns, indexed, subject, i);
      }
      PlainRunChangesOnlyOurs(d, c, existing, before, indexed, subject, dbRole, t);
      var mid := Run(d, c, before, indexed);
      assert !OwnerAt(d, c, turns, indexed, subject, last);
      TurnChangesOnlyOurs(mid, c, existing, turns[last], indexed, subject, t);
      WiderIds(Rows(mid, t), Rows(Run(d, c, turns, indexed), t), t, AccountIds(Rows(mid, Users), subject), AccountIds(Rows(d, Users), subject), dbRole);
      OursTwice(Rows(d, t), Rows(mid, t), Rows(Run(d, c, turns, indexed), t), t, AccountIds(Rows(d, Users), subject), dbRole);
    } else {
      NothingChanged(Rows(d, t), t, AccountIds(Rows(d, Users), subject), dbRole);
    }
  }

  lemma WiderIds(before: map<Key, Row>, after: map<Key, Row>, t: Table, ids: set<int>, wider: set<int>, dbRole: string)
    requires OnlyOursChanged(before, after, t, ids, dbRole) && ids <= wider
    ensures OnlyOursChanged(before, after, t, wider, dbRole)
  {
    hide IsUserTable;
  }

  lemma RunNext(d: Data, c: Catalog, turns: seq<Turn>, indexed: bool, i: nat)
    requires i < |turns|
    ensures Run(d, c, turns[..i + 1], indexed) == Next(Run(d, c, turns[..i], indexed), c, turns[i], indexed)
  {
    assert turns[..i + 1][..i] == turns[..i];
  }

  lemma OwnerNextIff(d: Data, c: Catalog, existing: set<string>, turns: seq<Turn>, subject: Option<string>, dbRole: string, i: nat)
    requires Installed(c, existing) && SessionsOf(d, c, turns, false, subject, dbRole)
    requires i < |turns| && !OwnerAt(d, c, turns, false, subject, i)
    ensures OwnerAt(d, c, turns, false, subject, i + 1) <==> PromotesAt(d, c, turns, false, subject, i)
  {
    hide Installed, Execute, OwnerAccount, Promotes, AccountIds, Run;
    RunNext(d, c, turns, false, i);
    OwnerAfterIff(Run(d, c, turns[..i], false), c, existing, turns[i].stmt, subject, turns[i].session);
  }

  lemma {:induction false} NeverOwnerBefore(
      d: Data, c: Catalog, existing: set<string>, turns: seq<Turn>, subject: Option<string>, dbRole: string, n: nat)
    requires Installed(c, existing) && SessionsOf(d, c, turns, false, subject, dbRole)
    requires n <= |turns| && !OwnerAt(d, c, turns, false, subject, 0)
    requires forall i :: 0 <= i < n ==> !PromotesAt(d, c, turns, false, subject, i)
    ensures forall i :: 0 <= i <= n ==> !OwnerAt(d, c, turns, false, subject, i)
  {
    hide Installed, SessionsOf, OwnerAt, PromotesAt;
    if n > 0 {
      NeverOwnerBefore(d, c, existing, turns, subject, dbRole, n - 1);
      OwnerNextIff(d, c, existing, turns, subject, dbRole, n - 1);
    }
  }

  /** A subject that is not the owner at the start stays so through the whole run exactly when no
      statement of the run promotes it. */
  lemma NeverOwnerIff(d: Data, c: Catalog, existing: set<string>, turns: seq<Turn>, subject: Option<string>, dbRole: string)
    requires Installed(c, existing) && SessionsOf(d, c, turns, false, subject, dbRole)
    requires !OwnerAt(d, c, turns, false, subject, 0)
    ensures (forall i :: 0 <= i <= |turns| ==> !OwnerAt(d, c, turns, false, subject, i)) <==>
            (forall i :: 0 <= i < |turns| ==> !PromotesAt(d, c, turns, false, subject, i))
  {
    hide Installed, SessionsOf, OwnerAt, PromotesAt;
    if forall i :: 0 <= i < |turns| ==> !PromotesAt(d, c, turns, false, subject, i) {
      NeverOwnerBefore(d, c, existing, turns, subject, dbRole, |turns|);
    }
    if forall i :: 0 <= i <= |turns| ==> !OwnerAt(d, c, turns, false, subject, i) {
      forall i | 0 <= i < |turns| ensures !PromotesAt(d, c, turns, false, subject, i) {
        assert !OwnerAt(d, c, turns, false, subject, i) && !OwnerAt(d, c, turns, false, subject, i + 1);
        OwnerNextIff(d, c, existing, turns, subject, dbRole, i);
      }
    }
  }

  /** Any run of inserts, updates and deletes of a subject that is not the owner, with the session
      functions evaluated anew before every statement and no statement promoting the subject: in every
      application table all that does not belong to one of the subject's accounts is as it was. */
  lemma RunChangesOnlyMine(
      d: Data, c: Catalog, existing: set<string>, turns: seq<Turn>, subject: Option<string>, dbRole: string, t: Table)
    requires Installed(c, existing) && SessionsOf(d, c, turns, false, subject, dbRole) && !t.Other?
    requires !OwnerAccount(Rows(d, Users), subject)
    requires forall i :: 0 <= i < |turns| ==> !PromotesAt(d, c, turns, false, subject, i)
    ensures !OwnerAccount(Rows(Run(d, c, turns, false), Users), subject)
    ensures OnlyOursChanged(Rows(d, t), Rows(Run(d, c, turns, false), t), t, AccountIds(Rows(d, Users), subject), dbRole)
  {
    hide Installed, SessionsOf, OnlyOursChanged, OwnerAccount, PromotesAt, AccountIds;
    assert turns[..0] == [] && turns[..|turns|] == turns;
    assert !OwnerAt(d, c, turns, false, subject, 0);
    NeverOwnerIff(d, c, existing, turns, subject, dbRole);
    assert !OwnerAt(d, c, turns, false, subject, |turns|);
    PlainRunChangesOnlyOurs(d, c, existing, turns, false, subject, dbRole, t);
  }

  // ---- The condition is needed ----

  /** An account with id 7 and the given role, next to a library item of the user with id 8. */
  function TwoUsers(role: string): Data {
    map[Users := map[0 := Row(7, None, Some("u"), role, false, "")], LibraryItems := map[0 := Row(1, Some(8), None, "", false, "")]]
  }

  function SessionOfSeven(isOwner: bool): Session {
    Session("authenticated", isOwner, Some(7))
  }

  function SelfUpdate(): Turn {
    Turn(UpdateRows(Users, {0}, (r: Row) => r.(role := "owner"), false), SessionOfSeven(false))
  }

  function ItemDelete(): Turn {
    Turn(DeleteRows(LibraryItems, {0}, false), SessionOfSeven(true))
  }

  lemma UpdateOfOneRow(d: Data, c: Catalog, t: Table, row: Row, assign: Row -> Row, s: Session)
    requires Rows(d, t) == map[0 := row] && UsingPasses(c, t, Update, row, s) && CheckPasses(c, t, Update, assign(row), s)
    ensures Execute(d, c, UpdateRows(t, {0}, assign, false), s) == d[t := map[0 := assign(row)]]
  {
    hide UsingPasses, CheckPasses;
    var hit := Affected(d, c, Update, t, {0}, false, s);
    assert hit == {0};
    hide Affected;
    assert Accepted(d, c, UpdateRows(t, {0}, assign, false), s);
    var after := Execute(d, c, UpdateRows(t, {0}, assign, false), s);
    assert after == d[t := after[t]];
    assert after[t] == map[0 := assign(row)];
  }

  lemma DeleteOfOneRow(d: Data, c: Catalog, t: Table, row: Row, s: Session)
    requires Rows(d, t) == map[0 := row] && UsingPasses(c, t, Delete, row, s)
    ensures Execute(d, c, DeleteRows(t, {0}, false), s) == d[t := map[]]
  {
    hide UsingPasses, CheckPasses;
    assert Affected(d, c, Delete, t, {0}, false, s) == {0};
  }

  lemma SelfUpdateRuns(c: Catalog, existing: set<string>)
    requires Installed(c, existing) && "authenticated" in existing
    ensures Next(TwoUsers("user"), c, SelfUpdate(), false) == TwoUsers("owner")
  {
    hide Installed, Execute;
    var s, row := SessionOfSeven(false), Row(7, None, Some("u"), "user", false, "");
    OwnRowPasses(c, existing, row, s);
    OwnRowPasses(c, existing, row.(role := "owner"), s);
    UpdateOfOneRow(TwoUsers("user"), c, Users, row, SelfUpdate().stmt.assign, s);
    assert SelfUpdate() == Turn(UpdateRows(Users, {0}, SelfUpdate().stmt.assign, false), s);
    assert TwoUsers("user")[Users := map[0 := row.(role := "owner")]] == TwoUsers("owner");
  }

  lemma ItemDeleteRuns(c: Catalog, existing: set<string>)
    requires Installed(c, existing) && "authenticated" in existing
    ensures Rows(Next(TwoUsers("owner"), c, ItemDelete(), false), LibraryItems) == map[]
  {
    hide Installed, Execute;
    var s, row := SessionOfSeven(true), Row(1, Some(8), None, "", false, "");
    OwnerDeletes(c, existing, row, s);
    DeleteOfOneRow(TwoUsers("owner"), c, LibraryItems, row, s);
    assert ItemDelete() == Turn(DeleteRows(LibraryItems, {0}, false), s);
  }

  /** The policy on users lets a user update any column of the own row, the role included. After such an
      update the row policies treat the user as the owner, and a row of another user can go. */
  lemma SelfUpdateCanPromote(c: Catalog, existing: set<string>)
    requires Installed(c, existing) && "authenticated" in existing
    ensures var d, turns := TwoUsers("user"), [SelfUpdate(), ItemDelete()];
      && !OwnerAccount(Rows(d, Users), Some("u"))
      && SessionsOf(d, c, turns, false, Some("u"), "authenticated")
      && Rows(d, LibraryItems) != map[] && Rows(Run(d, c, turns, false), LibraryItems) == map[]
  {
    var turns := [SelfUpdate(), ItemDelete()];
    SelfUpdateRuns(c, existing);
    ItemDeleteRuns(c, existing);
    IdentityOfOne(Rows(TwoUsers("user"), Users)[0], SessionOfSeven(false));
    IdentityOfOne(Rows(TwoUsers("owner"), Users)[0], SessionOfSeven(true));
    hide Installed, IdentityOf, OwnerAccount;
    TwoTurns(TwoUsers("user"), c, turns[0], turns[1], Some("u"), "authenticated");
  }

  lemma TwoTurns(d: Data, c: Catalog, first: Turn, second: Turn, subject: Option<string>, dbRole: string)
    requires first.session.dbRole == second.session.dbRole == dbRole
    requires IdentityOf(Rows(d, Users), subject, first.session)
    requires IdentityOf(Rows(Next(d, c, first, false), Users), subject, second.session)
    ensures SessionsOf(d, c, [first, second], false, subject, dbRole)
    ensures Run(d, c, [first, second], false) == Next(Next(d, c, first, false), c, second, false)
  {
    hide Next, IdentityOf;
    var turns := [first, second];
    RunNext(d, c, turns, false, 0);
    RunNext(d, c, turns, false, 1);
    assert turns[..0] == [] && turns[..2] == turns;
    assert Run(d, c, turns[..0], false) == d;
    hide Run;
    forall i | 0 <= i < |turns|
      ensures turns[i].session.dbRole == dbRole && IdentityOf(Rows(Run(d, c, turns[..i], false), Users), subject, turns[i].session)
    {
      assert i == 0 || i == 1;
    }
  }

  lemma IdentityOfOne(row: Row, s: Session)
    requires row.subject == Some("u") && s.userId == Some(row.id) && (s.isOwner <==> row.role == "owner")
    ensures IdentityOf(map[0 := row], Some("u"), s)
    ensures OwnerAccount(map[0 := row], Some("u")) <==> s.isOwner
  {
    var users: map<Key, Row> := map[0 := row];
    assert 0 in users && IsAccount(users[0], Some("u"));
  }

  lemma OwnRowPasses(c: Catalog, existing: set<string>, row: Row, s: Session)
    requires Installed(c, existing) && "authenticated" in existing
    requires s.dbRole == "authenticated" && s.userId == Some(row.id)
    ensures UsingPasses(c, Users, Update, row, s) && CheckPasses(c, Users, Update, row, s)
  {
    var p := Policy("Owner or self-update for users", Update, AUTHENTICATED, OWNER_OR_MINE, OWNER_OR_MINE);
    assert p in UserTablePolicies(Users) by { assert UserTablePolicies(Users)[1] == p; }
    AuthenticatedApplies(c, existing, Users, p, s);
    hide Installed, Policies;
    assert Eval(p.using.value, Users, row, s);
  }

  lemma OwnerDeletes(c: Catalog, existing: set<string>, row: Row, s: Session)
    requires Installed(c, existing) && "authenticated" in existing
    requires s.dbRole == "authenticated" && s.isOwner
    ensures UsingPasses(c, LibraryItems, Delete, row, s)
  {
    var p := UserDelete(LibraryItems);
    assert p in UserTablePolicies(LibraryItems) by { assert UserTablePolicies(LibraryItems)[2] == p; }
    AuthenticatedApplies(c, existing, LibraryItems, p, s);
    hide Installed, Policies;
    assert Eval(p.using.value, LibraryItems, row, s);
  }

  lemma AuthenticatedApplies(c: Catalog, existing: set<string>, t: Table, p: Policy, s: Session)
    requires Installed(c, existing) && "authenticated" in existing && s.dbRole == "authenticated"
    requires IsUserTable(t) && p in UserTablePolicies(t) && p.roles == AUTHENTICATED
    ensures p.name in InForce(c, t) && InForce(c, t)[p.name] == Narrowed(p, existing)
    ensures Applies(InForce(c, t)[p.name], p.command, s)
  {
    hide UserTablePolicies, TableName;
    AvailableRoles(AUTHENTICATED, existing, "authenticated");
    assert Policies(t) == Some(UserTablePolicies(t));
  }

  // ---- With the unique index on the owner ----

  /** While somebody else is the owner, the index refuses every statement that would promote. */
  lemma IndexedTurn(d: Data, c: Catalog, existing: set<string>, turn: Turn, subject: Option<string>, owner: Key)
    requires Installed(c, existing) && !turn.session.isOwner && IdentityOf(Rows(d, Users), subject, turn.session)
    requires SingleOwner(Rows(d, Users)) && OwnedBySomebodyElse(Rows(d, Users), subject, owner)
    ensures SingleOwner(Rows(Next(d, c, turn, true), Users)) && OwnedBySomebodyElse(Rows(Next(d, c, turn, true), Users), subject, owner)
  {
    UsersAfter(d, c, existing, turn.stmt, turn.session);
    hide Installed, Execute, Accepted, Affected;
  }

  ghost predicate OwnedBySomebodyElse(users: map<Key, Row>, subject: Option<string>, owner: Key) {
    owner in users && users[owner].role == "owner" && !IsAccount(users[owner], subject)
  }

  lemma NotTheOwner(users: map<Key, Row>, subject: Option<string>, owner: Key)
    requires SingleOwner(users) && OwnedBySomebodyElse(users, subject, owner)
    ensures !OwnerAccount(users, subject)
  {
  }

  lemma {:induction false} IndexedRunKeepsOwner(
      d: Data, c: Catalog, existing: set<string>, turns: seq<Turn>, subject: Option<string>, dbRole: string, owner: Key)
    requires Installed(c, existing) && SessionsOf(d, c, turns, true, subject, dbRole)
    requires SingleOwner(Rows(d, Users)) && OwnedBySomebodyElse(Rows(d, Users), subject, owner)
    ensures var users := Rows(Run(d, c, turns, true), Users); SingleOwner(users) && OwnedBySomebodyElse(users, subject, owner)
  {
    if turns != [] {
      hide Installed, Next, SingleOwner, OwnedBySomebodyElse, OwnerAccount, AccountIds;
      var before := turns[..|turns| - 1];
      SessionsOfPrefix(d, c, turns, true, subject, dbRole);
      IndexedRunKeepsOwner(d, c, existing, before, subject, dbRole, owner);
      NotTheOwner(Rows(Run(d, c, before, true), Users), subject, owner);
      IndexedTurn(Run(d, c, before, true), c, existing, turns[|turns| - 1], subject, owner);
    }
  }

  /** With the index in place, and an owner who is not the subject, every run whatever leaves all that
      does not belong to one of the subject's accounts as it was. */
  lemma IndexedRunChangesOnlyMine(
      d: Data, c: Catalog, existing: set<string>, turns: seq<Turn>, subject: Option<string>, dbRole: string, owner: Key, t: Table)
    requires Installed(c, existing) && SessionsOf(d, c, turns, true, subject, dbRole) && !t.Other?
    requires SingleOwner(Rows(d, Users)) && OwnedBySomebodyElse(Rows(d, Users), subject, owner)
    ensures OnlyOursChanged(Rows(d, t), Rows(Run(d, c, turns, true), t), t, AccountIds(Rows(d, Users), subject), dbRole)
    ensures !OwnerAccount(Rows(Run(d, c, turns, true), Users), subject)
  {
    hide Installed, Run, SingleOwner, OwnedBySomebodyElse, OnlyOursChanged, OwnerAccount, AccountIds, IdentityOf;
    forall i | 0 <= i <= |turns| ensures !OwnerAt(d, c, turns, true, subject, i) {
      var prefix := turns[..i];
      forall j | 0 <= j < i
        ensures prefix[j].session.dbRole == dbRole && IdentityOf(Rows(Run(d, c, prefix[..j], true), Users), subject, prefix[j].session)
      {
        assert prefix[..j] == turns[..j] && prefix[j] == turns[j];
      }
      IndexedRunKeepsOwner(d, c, existing, prefix, subject, dbRole, owner);
      NotTheOwner(Rows(Run(d, c, prefix, true), Users), subject, owner);
    }
    assert turns[..|turns|] == turns && !OwnerAt(d, c, turns, true, subject, |turns|);
    PlainRunChangesOnlyOurs(d, c, existing, turns, true, subject, dbRole, t);
  }

  // ---- The installer ----

  function Target(policies: seq<Policy>, existing: set<string>): map<string, Policy> {
    if policies == [] then map[]
    else
      var last := policies[|policies| - 1];
      var before := Target(policies[..|policies| - 1], existing);
      if Available(last.roles, existing) == [] then before else before[last.name := Narrowed(last, existing)]
  }

  lemma TargetStep(policies: seq<Policy>, existing: set<string>, i: nat)
    requires i < |policies|
    ensures Target(policies[..i + 1], existing) ==
            if Available(policies[i].roles, existing) == [] then Target(policies[..i], existing)
            else Target(policies[..i], existing)[policies[i].name := Narrowed(policies[i], existing)]
  {
    assert policies[..i + 1][..i] == policies[..i];
  }

  lemma {:induction false} TargetContents(policies: seq<Policy>, existing: set<string>)
    requires DistinctNames(policies)
    ensures forall n :: n in Target(policies, existing) ==>
      exists p :: p in policies && Available(p.roles, existing) != [] && n == p.name && Target(policies, existing)[n] == Narrowed(p, existing)
    ensures forall p :: p in policies && Available(p.roles, existing) != [] ==>
      p.name in Target(policies, existing) && Target(policies, existing)[p.name] == Narrowed(p, existing)
  {
    hide Available;
    if policies != [] {
      var before := policies[..|policies| - 1];
      TargetContents(before, existing);
      assert policies == before + [policies[|policies| - 1]];
    }
  }

  lemma WrittenTwice(c: Catalog, t: Table, first: map<string, Policy>, second: map<string, Policy>)
    ensures c[t := first][t := second] == c[t := second]
  {
  }

  lemma TargetOfNone(policies: seq<Policy>, existing: set<string>)
    requires policies == []
    ensures Target(policies, existing) == map[]
  {
  }

  lemma NameIsFree(policies: seq<Policy>, existing: set<string>, i: nat)
    requires i < |policies| && DistinctNames(policies)
    ensures policies[i].name !in Target(policies[..i], existing)
  {
    TargetContents(policies[..i], existing);
  }

  lemma InstalledBeside(c: Catalog, existing: set<string>, t: Table)
    requires Policies(t).Some?
    ensures var c' := c[t := Target(Policies(t).value, existing)];
      InstalledOn(c', existing, t) && forall u :: InstalledOn(c, existing, u) ==> InstalledOn(c', existing, u)
  {
    hide Policies, Target;
  }

  lemma OthersStay(c: Catalog, t: Table, policies: map<string, Policy>)
    ensures forall u :: u != t ==> InForce(c[t := policies], u) == InForce(c, u)
  {
  }

  lemma InstalledEverywhere(c: Catalog, existing: set<string>)
    requires forall t: Table :: !t.Other? ==> InstalledOn(c, existing, t)
    ensures Installed(c, existing)
  {
    forall t: Table | !t.Other? ensures InstalledOn(c, existing, t) && DistinctNames(Policies(t).value) {
      InventoryNamesDistinct(t);
    }
    forall t: Table | !t.Other? {
      TargetContents(Policies(t).value, existing);
    }
    hide Policies, Target, Available, DistinctNames;
  }

  ghost predicate InstalledOn(c: Catalog, existing: set<string>, t: Table) {
    t in c && Policies(t).Some? && c[t] == Target(Policies(t).value, existing)
  }

  class Installer {
    var catalog: Catalog
    var secured: set<Table>
    var roles: set<string>

    /** Drops every policy of a table, whatever it is called. */
    method DropAllPolicies(t: Table)
      modifies this`catalog
      ensures catalog == old(catalog)[t := map[]]
    {
      var names := InForce(catalog, t).Keys;
      if t !in catalog {
        catalog := catalog[t := map[]];
      }
      while names != {}
        invariant t in catalog && catalog == old(catalog)[t := catalog[t]]
        invariant catalog[t].Keys == names
        decreases names
      {
        var n :| n in names;
        catalog := catalog[t := catalog[t] - {n}];
        names := names - {n};
      }
      assert catalog[t] == map[];
    }

    /** Creates a policy for those of its roles that exist; fails if the name is taken. */
    method CreatePolicy(t: Table, p: Policy) returns (ok: bool)
      requires t in catalog
      modifies this`catalog
      ensures ok <==> Available(p.roles, roles) == [] || p.name !in old(catalog)[t]
      ensures ok ==> catalog == (if Available(p.roles, roles) == [] then old(catalog)
                                 else old(catalog)[t := old(catalog)[t][p.name := Narrowed(p, roles)]])
    {
      var available := Available(p.roles, roles);
      if available == [] {
        return true;
      }
      if p.name in catalog[t] {
        return false;
      }
      catalog := catalog[t := catalog[t][p.name := Policy(p.name, p.command, available, p.using, p.check)]];
      ok := true;
    }

    method CreatePolicies(t: Table, policies: seq<Policy>) returns (ok: bool)
      requires t in catalog && catalog[t] == map[] && DistinctNames(policies)
      modifies this`catalog
      ensures ok && catalog == old(catalog)[t := Target(policies, roles)]
    {
      hide Target, DistinctNames, Available, Narrowed;
      TargetOfNone(policies[..0], roles);
      var i := 0;
      while i < |policies|
        invariant 0 <= i <= |policies|
        invariant t in catalog && catalog[t] == Target(policies[..i], roles)
        invariant catalog == old(catalog)[t := catalog[t]]
      {
        NameIsFree(policies, roles, i);
        TargetStep(policies, roles, i);
        ok := CreatePolicy(t, policies[i]);
        assert ok;
        i := i + 1;
      }
      assert policies[..i] == policies;
      ok := true;
    }

    /** One turn of the installer's loop. */
    method InstallTable(t: Table) returns (ok: bool)
      requires Policies(t).Some?
      modifies this`catalog, this`secured
      ensures ok && secured == old(secured) + {t}
      ensures catalog == old(catalog)[t := Target(Policies(t).value, roles)]
    {
      InventoryNamesDistinct(t);
      hide Policies, Target, DistinctNames, TableName;
      secured := secured + {t};
      DropAllPolicies(t);
      ok := CreatePolicies(t, Policies(t).value);
      WrittenTwice(old(catalog), t, map[], Target(Policies(t).value, roles));
    }

    /** The whole loop never fails, and leaves on every application table row security enabled and
        exactly the declared policies, whatever policies there were, so that every session may do exactly
        what is permitted; other tables keep theirs. */
    method Install() returns (ok: bool)
      modifies this`catalog, this`secured
      ensures ok && Installed(catalog, roles) && Enforces(catalog, roles)
      ensures forall t: Table :: !t.Other? ==> t in secured
      ensures forall t: Table :: t.Other? ==> InForce(catalog, t) == InForce(old(catalog), t) && (t in secured <==> t in old(secured))
    {
      hide *;
      var tables := AllTables();
      forall t: Table ensures (Policies(t).Some? <==> t in tables) && (t in tables <==> !t.Other?) {
        InventoryCoversTables(t);
      }
      var i := 0;
      while i < |tables|
        invariant 0 <= i <= |tables|
        invariant forall t :: t in tables[..i] ==> t in secured && InstalledOn(catalog, roles, t)
        invariant forall t: Table :: t.Other? ==> InForce(catalog, t) == InForce(old(catalog), t) && (t in secured <==> t in old(secured))
      {
        var t := tables[i];
        assert t in tables;
        ghost var before := catalog;
        ok := InstallTable(t);
        InstalledBeside(before, roles, t);
        OthersStay(before, t, catalog[t]);
        i := i + 1;
      }
      assert tables[..i] == tables;
      InstalledEverywhere(catalog, roles);
      InstalledEnforces(catalog, roles);
      ok := true;
    }
  }
}
