/**
 * The application registry, the grants on it and the audit log written with every change; what a
 * person may open, and the two lists that show it.
 */
module AccessRegistry {
  import opened Common
  import opened Sorting
  import opened TextOrder

  datatype AppStatus = Live | Retired

  /** Where an application reports its figures, to whom, and its place in the list. */
  datatype Governance = Governance(summaryPath: Option<string>, audience: Option<string>, order: int)

  const NO_GOVERNANCE := Governance(None, None, 0)

  datatype AppRow = AppRow(key: string, name: string, url: string, status: AppStatus, governance: Governance)

  /** Without governance fields a row keeps those it has. */
  datatype AppInput = AppInput(
    key: string, name: string, url: string, status: AppStatus, governance: Option<Governance>)

  datatype Identity = Identity(issuer: string, subject: string)

  datatype GrantStatus = Granted | Withdrawn

  datatype Grant = Grant(status: GrantStatus, reason: Option<string>, actor: string)

  datatype GrantKey = GrantKey(identity: Identity, app: string)

  datatype Event =
    | AppUpserted(target: string, status: AppStatus, url: string, governance: Option<Governance>)
    | AccessSet(target: string, app: string, grant: Grant)

  datatype Db = Db(apps: seq<AppRow>, grants: map<GrantKey, Grant>, audit: seq<Event>)

  /** `Seed` is what every start of the server does for one application, at the configured address. */
  datatype Action =
    | Seed(url: string)
    | Upsert(input: AppInput)
    | SetAccess(identity: Identity, app: string, grant: Grant)

  function FindApp(apps: seq<AppRow>, key: string): Option<AppRow> {
    if apps == [] then None
    else if apps[0].key == key then Some(apps[0])
    else FindApp(apps[1..], key)
  }

  function PutApp(apps: seq<AppRow>, row: AppRow): seq<AppRow> {
    if apps == [] then [row]
    else if apps[0].key == row.key then [row] + apps[1..]
    else [apps[0]] + PutApp(apps[1..], row)
  }

  function GovernanceOf(apps: seq<AppRow>, key: string): Governance {
    match FindApp(apps, key) case None => NO_GOVERNANCE case Some(row) => row.governance
  }

  function UpsertedRow(apps: seq<AppRow>, input: AppInput): AppRow {
    AppRow(input.key, input.name, input.url, input.status,
      if input.governance.Some? then input.governance.value else GovernanceOf(apps, input.key))
  }

  const SEED_KEY := "hcis"
  const SEED_NAME := "HCIS"

  /** A present row keeps its status and governance fields. */
  function SeededRow(apps: seq<AppRow>, url: string): AppRow {
    match FindApp(apps, SEED_KEY)
    case None => AppRow(SEED_KEY, SEED_NAME, url, Live, NO_GOVERNANCE)
    case Some(row) => AppRow(SEED_KEY, SEED_NAME, url, row.status, row.governance)
  }

  function UpsertEvent(input: AppInput): Event {
    AppUpserted(input.key, input.status, input.url, input.governance)
  }

  function TargetRef(identity: Identity, app: string): string {
    identity.issuer + "|" + identity.subject + "|" + app
  }

  /** An unknown application is an error and changes nothing. */
  function Step(db: Db, a: Action): Db {
    match a
    case Seed(url) => db.(apps := PutApp(db.apps, SeededRow(db.apps, url)))
    case Upsert(input) =>
      db.(apps := PutApp(db.apps, UpsertedRow(db.apps, input)), audit := db.audit + [UpsertEvent(input)])
    case SetAccess(identity, app, grant) =>
      if FindApp(db.apps, app).None? then db
      else db.(
        grants := db.grants[GrantKey(identity, app) := grant],
        audit := db.audit + [AccessSet(TargetRef(identity, app), app, grant)])
  }

  function Run(db: Db, actions: seq<Action>): Db {
    if actions == [] then db else Step(Run(db, actions[..|actions| - 1]), actions[|actions| - 1])
  }

  const EMPTY := Db([], map[], [])

  // --------------------------------------------------------------------- reading the tables back

  function GrantOf(db: Db, identity: Identity, app: string): Option<Grant> {
    if GrantKey(identity, app) in db.grants then Some(db.grants[GrantKey(identity, app)]) else None
  }

  datatype Decision = ActiveGrant | NoGrant | GrantRevoked | ApplicationInactive | UnknownApplication

  function CheckAccess(db: Db, identity: Identity, app: string): Decision {
    match FindApp(db.apps, app)
    case None => UnknownApplication
    case Some(row) =>
      if row.status != Live then ApplicationInactive
      else
        match GrantOf(db, identity, app)
        case None => NoGrant
        case Some(grant) => if grant.status != Granted then GrantRevoked else ActiveGrant
  }

  // ------------------------------------------------------------------------- reading the log back

  /** The last event on a target says what its grant is. */
  function ReplayGrant(audit: seq<Event>, target: string): Option<Grant> {
    if audit == [] then None
    else
      var last := audit[|audit| - 1];
      if last.AccessSet? && last.target == target then Some(last.grant) else ReplayGrant(audit[..|audit| - 1], target)
  }

  function ReplayApp(audit: seq<Event>, key: string): Option<(AppStatus, string)> {
    if audit == [] then None
    else
      var last := audit[|audit| - 1];
      if last.AppUpserted? && last.target == key then Some((last.status, last.url))
      else ReplayApp(audit[..|audit| - 1], key)
  }

  /** The last upsert that named governance fields says what they are. */
  function ReplayGovernance(audit: seq<Event>, key: string): Governance {
    if audit == [] then NO_GOVERNANCE
    else
      var last := audit[|audit| - 1];
      if last.AppUpserted? && last.target == key && last.governance.Some? then last.governance.value
      else ReplayGovernance(audit[..|audit| - 1], key)
  }

  /** An application key as the service accepts it has no bar in it. */
  predicate NoBar(s: string) {
    '|' !in s
  }

  lemma BarNotLater(a: string, k: string, b: string, m: string)
    requires NoBar(m) && a + "|" + k == b + "|" + m
    ensures |a| <= |b|
  {
    var s := b + "|" + m;
    assert forall i :: |b| < i < |s| ==> s[i] == m[i - |b| - 1];
    assert s[|a|] == (a + "|" + k)[|a|] == '|';
  }

  lemma LastBar(a: string, k: string, b: string, m: string)
    requires NoBar(k) && NoBar(m) && a + "|" + k == b + "|" + m
    ensures a == b && k == m
  {
    BarNotLater(a, k, b, m);
    BarNotLater(b, m, a, k);
    var s := a + "|" + k;
    assert a == s[..|a|] && b == s[..|b|];
    assert k == s[|a| + 1..] && m == s[|b| + 1..];
  }

  /** No issuer followed by a bar begins another issuer; true of one issuer, and of issuers without a bar. */
  ghost predicate Unambiguous(issuers: set<string>) {
    forall i, j :: i in issuers && j in issuers && i != j ==> !(i + "|" <= j)
  }

  lemma ShorterIssuerBegins(x: Identity, y: Identity)
    requires x.issuer + "|" + x.subject == y.issuer + "|" + y.subject && |x.issuer| < |y.issuer|
    ensures x.issuer + "|" <= y.issuer
  {
    var p, q := x.issuer + "|" + x.subject, y.issuer + "|" + y.subject;
    assert x.issuer + "|" == p[..|x.issuer| + 1] == q[..|x.issuer| + 1] == y.issuer[..|x.issuer| + 1];
  }

  lemma RefsDiffer(x: Identity, a: string, y: Identity, b: string, issuers: set<string>)
    requires Unambiguous(issuers) && x.issuer in issuers && y.issuer in issuers && NoBar(a) && NoBar(b)
    ensures TargetRef(x, a) == TargetRef(y, b) <==> x == y && a == b
  {
    if TargetRef(x, a) == TargetRef(y, b) {
      var p, q := x.issuer + "|" + x.subject, y.issuer + "|" + y.subject;
      LastBar(p, a, q, b);
      if |x.issuer| < |y.issuer| {
        ShorterIssuerBegins(x, y);
      } else if |y.issuer| < |x.issuer| {
        ShorterIssuerBegins(y, x);
      } else {
        assert x.issuer == p[..|x.issuer|] && y.issuer == q[..|y.issuer|];
        assert x.subject == p[|x.issuer| + 1..] && y.subject == q[|y.issuer| + 1..];
      }
    }
  }

  /** Without that, two people can share a target: the reference is unique exactly for unambiguous issuers. */
  lemma RefsUniqueIff(issuers: set<string>, app: string)
    requires NoBar(app)
    ensures Unambiguous(issuers) <==>
      forall x: Identity, y: Identity :: x.issuer in issuers && y.issuer in issuers && x != y ==>
        TargetRef(x, app) != TargetRef(y, app)
  {
    if Unambiguous(issuers) {
      forall x: Identity, y: Identity | x.issuer in issuers && y.issuer in issuers && x != y
        ensures TargetRef(x, app) != TargetRef(y, app)
      {
        RefsDiffer(x, app, y, app, issuers);
      }
    } else {
      var i, j :| i in issuers && j in issuers && i != j && i + "|" <= j;
      var x, y := Identity(i, j[|i| + 1..] + "|s"), Identity(j, "s");
      assert j == i + "|" + j[|i| + 1..];
      assert TargetRef(x, app) == TargetRef(y, app);
    }
  }

  // ------------------------------------------------------------- the tables are what the log says

  lemma {:induction false} FindPut(apps: seq<AppRow>, row: AppRow, key: string)
    ensures FindApp(PutApp(apps, row), key) == if key == row.key then Some(row) else FindApp(apps, key)
  {
    if apps != [] { FindPut(apps[1..], row, key); }
  }

  predicate Accepted(a: Action, issuers: set<string>) {
    match a
    case Seed(_) => true
    case Upsert(input) => NoBar(input.key)
    case SetAccess(identity, app, _) => NoBar(app) && identity.issuer in issuers
  }

  ghost predicate AllAccepted(actions: seq<Action>, issuers: set<string>) {
    forall i :: 0 <= i < |actions| ==> Accepted(actions[i], issuers)
  }

  /** The address of the last seed of this application, if no upsert of it came after. */
  function LateSeed(actions: seq<Action>, key: string): Option<string> {
    if actions == [] then None
    else
      var last := actions[|actions| - 1];
      if last.Seed? && key == SEED_KEY then Some(last.url)
      else if last.Upsert? && last.input.key == key then None
      else LateSeed(actions[..|actions| - 1], key)
  }

  function StatusAndUrl(apps: seq<AppRow>, key: string): Option<(AppStatus, string)> {
    match FindApp(apps, key) case None => None case Some(row) => Some((row.status, row.url))
  }

  /** The log leaves out the seed: what an application is, from its last upsert and a later seed. */
  function WithSeed(replayed: Option<(AppStatus, string)>, seed: Option<string>): Option<(AppStatus, string)> {
    match seed
    case None => replayed
    case Some(url) => Some((if replayed.Some? then replayed.value.0 else Live, url))
  }

  /** The application half depends on no issuer. */
  lemma {:induction false} ApplicationsAreTheLog(actions: seq<Action>, key: string)
    ensures var db := Run(EMPTY, actions);
      && GovernanceOf(db.apps, key) == ReplayGovernance(db.audit, key)
      && StatusAndUrl(db.apps, key) == WithSeed(ReplayApp(db.audit, key), LateSeed(actions, key))
    decreases |actions|
  {
    if actions != [] {
      var n := |actions| - 1;
      ApplicationsAreTheLog(actions[..n], key);
      var before, a := Run(EMPTY, actions[..n]), actions[n];
      var db := Step(before, a);
      if db.audit != before.audit { assert db.audit[..|db.audit| - 1] == before.audit; }
      if a.Seed? { FindPut(before.apps, SeededRow(before.apps, a.url), key); }
      if a.Upsert? { FindPut(before.apps, UpsertedRow(before.apps, a.input), key); }
    }
  }

  /** One more event: it speaks of this target, or the replay is as before. */
  lemma ReplayNext(audit: seq<Event>, e: Event, target: string)
    ensures ReplayGrant(audit + [e], target) ==
      if e.AccessSet? && e.target == target then Some(e.grant) else ReplayGrant(audit, target)
  {
    assert (audit + [e])[..|audit|] == audit;
  }

  lemma StepKeepsGrantLog(db: Db, a: Action, issuers: set<string>, identity: Identity, app: string)
    requires Unambiguous(issuers) && Accepted(a, issuers) && identity.issuer in issuers && NoBar(app)
    requires GrantOf(db, identity, app) == ReplayGrant(db.audit, TargetRef(identity, app))
    ensures GrantOf(Step(db, a), identity, app) == ReplayGrant(Step(db, a).audit, TargetRef(identity, app))
  {
    var target := TargetRef(identity, app);
    match a
    case Seed(_) =>
    case Upsert(input) => ReplayNext(db.audit, UpsertEvent(input), target);
    case SetAccess(x, b, grant) =>
      RefsDiffer(x, b, identity, app, issuers);
      ReplayNext(db.audit, AccessSet(TargetRef(x, b), b, grant), target);
  }

  lemma {:induction false} GrantIsTheLog(actions: seq<Action>, issuers: set<string>, identity: Identity, app: string)
    requires Unambiguous(issuers) && AllAccepted(actions, issuers) && identity.issuer in issuers && NoBar(app)
    ensures GrantOf(Run(EMPTY, actions), identity, app)
      == ReplayGrant(Run(EMPTY, actions).audit, TargetRef(identity, app))
    decreases |actions|
  {
    if actions != [] {
      var n := |actions| - 1;
      GrantIsTheLog(actions[..n], issuers, identity, app);
      StepKeepsGrantLog(Run(EMPTY, actions[..n]), actions[n], issuers, identity, app);
    }
  }

  /**
   * In every state reachable from empty tables, under unambiguous issuers: each person's grant and each
   * application's governance fields are what replaying the audit log gives; its status and address are
   * too, except for a seed since its last upsert, which gives the address, and the status `Live` to an
   * application that was never upserted.
   */
  lemma TablesAreTheLog(
      actions: seq<Action>, issuers: set<string>, key: string, identity: Identity, app: string)
    requires Unambiguous(issuers) && AllAccepted(actions, issuers) && identity.issuer in issuers && NoBar(app)
    ensures var db := Run(EMPTY, actions);
      && GrantOf(db, identity, app) == ReplayGrant(db.audit, TargetRef(identity, app))
      && GovernanceOf(db.apps, key) == ReplayGovernance(db.audit, key)
      && StatusAndUrl(db.apps, key) == WithSeed(ReplayApp(db.audit, key), LateSeed(actions, key))
  {
    ApplicationsAreTheLog(actions, key);
    GrantIsTheLog(actions, issuers, identity, app);
  }

  /**
   * An application's status and address can be read back from the log exactly when no seed of it came after
   * its last upsert, or the seed wrote the address that upsert gave.
   */
  lemma ApplicationIsTheLogIff(actions: seq<Action>, key: string)
    ensures var db, seed := Run(EMPTY, actions), LateSeed(actions, key);
      var replayed := ReplayApp(db.audit, key);
      StatusAndUrl(db.apps, key) == replayed <==>
        seed.None? || (replayed.Some? && replayed.value.1 == seed.value)
  {
    ApplicationsAreTheLog(actions, key);
  }

  /** Both ways it fails: a first start leaves no event at all, and a restart takes an upserted address away. */
  lemma SeedIsNotInTheLog(configured: string, upserted: string)
    requires configured != upserted
    ensures var first := Run(EMPTY, [Seed(configured)]);
      StatusAndUrl(first.apps, SEED_KEY) == Some((Live, configured)) && first.audit == []
    ensures var input := AppInput(SEED_KEY, SEED_NAME, upserted, Live, None);
      var restarted := Run(EMPTY, [Upsert(input), Seed(configured)]);
      && StatusAndUrl(restarted.apps, SEED_KEY) == Some((Live, configured))
      && ReplayApp(restarted.audit, SEED_KEY) == Some((Live, upserted))
  {
    var input := AppInput(SEED_KEY, SEED_NAME, upserted, Live, None);
    RunLast([], Seed(configured));
    RunLast([], Upsert(input));
    RunLast([Upsert(input)], Seed(configured));
    assert [] + [Seed(configured)] == [Seed(configured)] && [] + [Upsert(input)] == [Upsert(input)];
    assert [Upsert(input)] + [Seed(configured)] == [Upsert(input), Seed(configured)];
    FindPut([], UpsertedRow([], input), SEED_KEY);
    FindPut([UpsertedRow([], input)], SeededRow([UpsertedRow([], input)], configured), SEED_KEY);
  }

  /** Every grant, in every run under these issuers, is what the log says. */
  ghost predicate GrantsAreTheLog(issuers: set<string>) {
    forall actions, identity: Identity, app ::
      AllAccepted(actions, issuers) && identity.issuer in issuers && NoBar(app) ==>
        GrantOf(Run(EMPTY, actions), identity, app) == ReplayGrant(Run(EMPTY, actions).audit, TargetRef(identity, app))
  }

  lemma RunLast(actions: seq<Action>, a: Action)
    ensures Run(EMPTY, actions + [a]) == Step(Run(EMPTY, actions), a)
  {
    assert (actions + [a])[..|actions|] == actions;
  }

  lemma SecondGrantIsReadBack(db: Db, x: Identity, y: Identity, app: string, given: Grant, taken: Grant)
    requires FindApp(db.apps, app).Some? && x != y && TargetRef(x, app) == TargetRef(y, app)
    ensures var end := Step(Step(db, SetAccess(x, app, given)), SetAccess(y, app, taken));
      GrantOf(end, x, app) == Some(given) && ReplayGrant(end.audit, TargetRef(x, app)) == Some(taken)
  {
  }

  /** Two people with one target: the grant of the second is read back as the grant of the first. */
  lemma SharedTargetMisleads(issuers: set<string>, x: Identity, y: Identity, app: string)
    requires x.issuer in issuers && y.issuer in issuers && x != y && NoBar(app) &&
      TargetRef(x, app) == TargetRef(y, app)
    ensures !GrantsAreTheLog(issuers)
  {
    var input := AppInput(app, "", "", Live, None);
    var given, taken := Grant(Granted, None, ""), Grant(Withdrawn, None, "");
    var first := [Upsert(input)];
    var actions := (first + [SetAccess(x, app, given)]) + [SetAccess(y, app, taken)];
    assert [] + [Upsert(input)] == first;
    RunLast([], Upsert(input));
    RunLast(first, SetAccess(x, app, given));
    RunLast(first + [SetAccess(x, app, given)], SetAccess(y, app, taken));
    FindPut([], UpsertedRow([], input), app);
    SecondGrantIsReadBack(Run(EMPTY, first), x, y, app, given, taken);
    assert AllAccepted(actions, issuers);
  }

  /** The grants can be read back from the log in every run exactly when the issuers are unambiguous. */
  lemma GrantsAreTheLogIff(issuers: set<string>)
    ensures GrantsAreTheLog(issuers) <==> Unambiguous(issuers)
  {
    if Unambiguous(issuers) {
      forall actions, identity: Identity, app
        | AllAccepted(actions, issuers) && identity.issuer in issuers && NoBar(app)
        ensures GrantOf(Run(EMPTY, actions), identity, app)
          == ReplayGrant(Run(EMPTY, actions).audit, TargetRef(identity, app))
      {
        GrantIsTheLog(actions, issuers, identity, app);
      }
    } else {
      RefsUniqueIff(issuers, "");
      var x: Identity, y: Identity :|
        x.issuer in issuers && y.issuer in issuers && x != y && TargetRef(x, "") == TargetRef(y, "");
      SharedTargetMisleads(issuers, x, y, "");
    }
  }

  // -------------------------------------------------------------------------------- who sees what

  predicate ByNameThenKey(a: AppRow, b: AppRow) {
    if a.name == b.name then TextLeq(a.key, b.key) else TextLess(a.name, b.name)
  }

  /** The rows of the workspace: live applications with an active grant, by name and then key. */
  function Authorized(db: Db, identity: Identity): seq<AppRow> {
    Sort(ByNameThenKey, Joined(db, db.apps, identity))
  }

  function Joined(db: Db, apps: seq<AppRow>, identity: Identity): seq<AppRow> {
    if apps == [] then []
    else
      var rest := Joined(db, apps[1..], identity);
      var grant := GrantOf(db, identity, apps[0].key);
      if apps[0].status == Live && grant.Some? && grant.value.status == Granted then [apps[0]] + rest else rest
  }

  ghost predicate UniqueKeys(apps: seq<AppRow>) {
    forall i, j :: 0 <= i < j < |apps| ==> apps[i].key != apps[j].key
  }

  lemma {:induction false} PutKeepsUnique(apps: seq<AppRow>, row: AppRow)
    requires UniqueKeys(apps)
    ensures UniqueKeys(PutApp(apps, row))
    ensures forall x :: x in PutApp(apps, row) ==> x == row || x in apps
  {
    if apps != [] && apps[0].key != row.key {
      PutKeepsUnique(apps[1..], row);
      var rest := PutApp(apps[1..], row);
      forall j | 0 <= j < |rest| ensures rest[j].key != apps[0].key { assert rest[j] in rest; }
    }
  }

  lemma {:induction false} RunKeepsUnique(actions: seq<Action>)
    ensures UniqueKeys(Run(EMPTY, actions).apps)
    decreases |actions|
  {
    if actions != [] {
      RunKeepsUnique(actions[..|actions| - 1]);
      var a := actions[|actions| - 1];
      var before := Run(EMPTY, actions[..|actions| - 1]).apps;
      if a.Upsert? { PutKeepsUnique(before, UpsertedRow(before, a.input)); }
      if a.Seed? { PutKeepsUnique(before, SeededRow(before, a.url)); }
    }
  }

  lemma {:induction false} FindIsMember(apps: seq<AppRow>, row: AppRow)
    requires UniqueKeys(apps)
    ensures FindApp(apps, row.key) == Some(row) <==> row in apps
  {
    if apps != [] {
      FindIsMember(apps[1..], row);
      assert apps == [apps[0]] + apps[1..];
    }
  }

  lemma {:induction false} JoinedIs(db: Db, apps: seq<AppRow>, identity: Identity, row: AppRow)
    ensures row in Joined(db, apps, identity) <==>
      row in apps && row.status == Live && GrantOf(db, identity, row.key).Some? &&
        GrantOf(db, identity, row.key).value.status == Granted
    ensures UniqueKeys(apps) ==> UniqueKeys(Joined(db, apps, identity))
  {
    if apps != [] {
      JoinedIs(db, apps[1..], identity, row);
      var rest := Joined(db, apps[1..], identity);
      if UniqueKeys(apps) {
        forall j | 0 <= j < |rest| ensures rest[j].key != apps[0].key {
          JoinedIs(db, apps[1..], identity, rest[j]);
          assert rest[j] in apps[1..];
        }
      }
    }
  }

  lemma RowOrder()
    ensures Order(ByNameThenKey)
  {
    TextLeqIsOrder();
    forall x, y ensures ByNameThenKey(x, y) || ByNameThenKey(y, x) {
      TextLessTrichotomy(x.name, y.name);
      TextLessTrichotomy(x.key, y.key);
    }
    forall x, y, z | ByNameThenKey(x, y) && ByNameThenKey(y, z) ensures ByNameThenKey(x, z) {
      assert TextLeq(x.name, y.name) && TextLeq(y.name, z.name);
      TextLessTrichotomy(x.name, z.name);
      TextLessTrichotomy(x.name, y.name);
      TextLessTrichotomy(y.name, z.name);
      if TextLess(x.name, y.name) && TextLess(y.name, z.name) { TextLessTransitive(x.name, y.name, z.name); }
    }
  }

  /** The workspace lists an application exactly when the access check allows it, in order, each once. */
  lemma WorkspaceIsTheCheck(actions: seq<Action>, identity: Identity, key: string)
    ensures var db := Run(EMPTY, actions);
      var list := Authorized(db, identity);
      && ((exists row :: row in list && row.key == key) <==> CheckAccess(db, identity, key) == ActiveGrant)
      && (forall row :: row in list ==> FindApp(db.apps, row.key) == Some(row))
      && Sorted(ByNameThenKey, list) && UniqueKeys(list)
  {
    var db := Run(EMPTY, actions);
    var joined, list := Joined(db, db.apps, identity), Authorized(db, identity);
    RunKeepsUnique(actions);
    RowOrder();
    SortIs(ByNameThenKey, joined);
    SortMembers(ByNameThenKey, joined);
    forall row
      ensures row in list <==>
        FindApp(db.apps, row.key) == Some(row) && CheckAccess(db, identity, row.key) == ActiveGrant
    {
      JoinedIs(db, db.apps, identity, row);
      FindIsMember(db.apps, row);
    }
    if CheckAccess(db, identity, key) == ActiveGrant {
      FoundHasKey(db.apps, key);
      assert FindApp(db.apps, key).value in list;
    }
    JoinedIs(db, db.apps, identity, AppRow("", "", "", Live, NO_GOVERNANCE));
    UniqueKeysPermute(joined, list);
  }

  lemma {:induction false} FoundHasKey(apps: seq<AppRow>, key: string)
    ensures FindApp(apps, key).Some? ==> FindApp(apps, key).value.key == key
  {
    if apps != [] { FoundHasKey(apps[1..], key); }
  }

  lemma UniqueKeysPermute(a: seq<AppRow>, b: seq<AppRow>)
    requires UniqueKeys(a) && multiset(a) == multiset(b)
    ensures UniqueKeys(b)
  {
    forall i, j | 0 <= i < j < |b| ensures b[i].key != b[j].key {
      if b[i].key == b[j].key {
        assert b[i] in multiset(a) && b[j] in multiset(a);
        SameKeySameRow(a, b[i], b[j]);
        Twice(b, i, j);
        Once(a, b[i]);
      }
    }
  }

  lemma SameKeySameRow(apps: seq<AppRow>, x: AppRow, y: AppRow)
    requires UniqueKeys(apps) && x in apps && y in apps && x.key == y.key
    ensures x == y
  {
  }

  // ------------------------------------------------------------------------------------ launcher

  const HUB_KEY := "sq-hub"

  datatype Entry = Entry(key: string, name: string, url: string)

  /** Rows other than SQ Hub itself, by key or by its own origin; `origin` is None for a URL that cannot be read. */
  predicate Launchable(row: AppRow, hub: Option<string>, origin: string -> Option<string>) {
    row.key != HUB_KEY &&
      !(hub.Some? && hub.value != "" && origin(row.url).Some? && origin(row.url) == origin(hub.value))
  }

  function Launcher(rows: seq<AppRow>, hub: Option<string>, origin: string -> Option<string>): seq<Entry> {
    if rows == [] then []
    else
      var rest := Launcher(rows[1..], hub, origin);
      if Launchable(rows[0], hub, origin) then [Entry(rows[0].key, rows[0].name, rows[0].url)] + rest else rest
  }

  /** Which workspace row each launcher entry is. */
  function Picks(rows: seq<AppRow>, hub: Option<string>, origin: string -> Option<string>): seq<nat> {
    if rows == [] then []
    else
      var rest := Picks(rows[..|rows| - 1], hub, origin);
      if Launchable(rows[|rows| - 1], hub, origin) then rest + [|rows| - 1] else rest
  }

  lemma {:induction false} LauncherAppend(rows: seq<AppRow>, row: AppRow, hub: Option<string>,
      origin: string -> Option<string>)
    ensures Launcher(rows + [row], hub, origin) ==
      Launcher(rows, hub, origin) + if Launchable(row, hub, origin) then [Entry(row.key, row.name, row.url)] else []
  {
    if rows == [] {
      assert (rows + [row])[1..] == [];
    } else {
      assert (rows + [row])[1..] == rows[1..] + [row];
      LauncherAppend(rows[1..], row, hub, origin);
    }
  }

  /** The launcher is the workspace list in its own order, minus SQ Hub: every other row once, nothing added. */
  lemma {:induction false} LauncherIsTheWorkspace(rows: seq<AppRow>, hub: Option<string>,
      origin: string -> Option<string>)
    ensures var picks, entries := Picks(rows, hub, origin), Launcher(rows, hub, origin);
      && |entries| == |picks|
      && (forall i :: 0 <= i < |picks| ==> picks[i] < |rows| && Launchable(rows[picks[i]], hub, origin))
      && (forall i :: 0 <= i < |picks| ==>
        entries[i] == Entry(rows[picks[i]].key, rows[picks[i]].name, rows[picks[i]].url))
      && (forall i, j :: 0 <= i < j < |picks| ==> picks[i] < picks[j])
      && (forall k :: 0 <= k < |rows| && Launchable(rows[k], hub, origin) ==> k in picks)
    decreases |rows|
  {
    if rows != [] {
      var n := |rows| - 1;
      assert rows == rows[..n] + [rows[n]];
      LauncherAppend(rows[..n], rows[n], hub, origin);
      LauncherIsTheWorkspace(rows[..n], hub, origin);
      var before := Picks(rows[..n], hub, origin);
      forall k | 0 <= k < |rows| && Launchable(rows[k], hub, origin) ensures k in Picks(rows, hub, origin) {
        if k < n { assert rows[..n][k] == rows[k] && k in before; }
      }
    }
  }

  // ---------------------------------------------------------------------------- the stored tables

  ghost predicate FirstRow(apps: seq<AppRow>, key: string, i: nat) {
    && i <= |apps| && (forall j :: 0 <= j < i ==> apps[j].key != key)
    && (i < |apps| ==> apps[i].key == key)
  }

  lemma {:induction false} RowAt(apps: seq<AppRow>, key: string, i: nat)
    requires FirstRow(apps, key, i)
    ensures FindApp(apps, key) == if i < |apps| then Some(apps[i]) else None
  {
    if i > 0 { RowAt(apps[1..], key, i - 1); }
  }

  lemma {:induction false} PutAt(apps: seq<AppRow>, row: AppRow, i: nat)
    requires FirstRow(apps, row.key, i)
    ensures PutApp(apps, row) == if i < |apps| then apps[i := row] else apps + [row]
  {
    if i > 0 {
      var rest := apps[1..];
      forall j | 0 <= j < i - 1 ensures rest[j].key != row.key { assert rest[j] == apps[j + 1]; }
      PutAt(rest, row, i - 1);
      if i < |apps| {
        assert apps[i := row] == [apps[0]] + rest[i - 1 := row];
      } else {
        assert apps + [row] == [apps[0]] + (rest + [row]);
      }
    }
  }

  class AccessTables {
    var applications: seq<AppRow>
    var grants: map<GrantKey, Grant>
    var audit: seq<Event>

    function Rows(): Db
      reads this
    {
      Db(applications, grants, audit)
    }

    /** The row with this key; the number of rows when there is none. */
    method FindRow(key: string) returns (i: nat)
      ensures i <= |applications| && (forall j :: 0 <= j < i ==> applications[j].key != key)
      ensures i < |applications| ==> applications[i].key == key
    {
      i := 0;
      while i < |applications| && applications[i].key != key
        invariant i <= |applications| && forall j :: 0 <= j < i ==> applications[j].key != key
      {
        i := i + 1;
      }
    }

    /** Inserts the application or updates the row with its key, and records it, in one transaction. */
    method UpsertApplication(input: AppInput)
      modifies this
      ensures Rows() == Step(old(Rows()), Upsert(input))
    {
      var i := FindRow(input.key);
      var kept := if i < |applications| then applications[i].governance else NO_GOVERNANCE;
      var governance := if input.governance.Some? then input.governance.value else kept;
      var row := AppRow(input.key, input.name, input.url, input.status, governance);
      RowAt(applications, input.key, i);
      PutAt(applications, row, i);
      applications := if i < |applications| then applications[i := row] else applications + [row];
      audit := audit + [UpsertEvent(input)];
    }

    /** Every start of the server writes this one row, and no event. */
    method SeedApplication(url: string)
      modifies this
      ensures Rows() == Step(old(Rows()), Seed(url))
      ensures forall identity: Identity, app :: GrantOf(Rows(), identity, app) == GrantOf(old(Rows()), identity, app)
    {
      var i := FindRow(SEED_KEY);
      var row := if i < |applications|
        then applications[i].(name := SEED_NAME, url := url)
        else AppRow(SEED_KEY, SEED_NAME, url, Live, NO_GOVERNANCE);
      RowAt(applications, SEED_KEY, i);
      PutAt(applications, row, i);
      applications := if i < |applications| then applications[i := row] else applications + [row];
    }

    /** False is the unknown application; nothing is stored then, not even in the log. */
    method StoreAccess(identity: Identity, app: string, grant: Grant) returns (ok: bool)
      modifies this
      ensures ok <==> FindApp(old(applications), app).Some?
      ensures Rows() == Step(old(Rows()), SetAccess(identity, app, grant))
      ensures ok ==> GrantOf(Rows(), identity, app) == Some(grant)
    {
      if FindApp(applications, app).None? { return false; }
      grants := grants[GrantKey(identity, app) := grant];
      audit := audit + [AccessSet(TargetRef(identity, app), app, grant)];
      ok := true;
    }
  }
}
