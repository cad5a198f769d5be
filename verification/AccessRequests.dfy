/** What each write to the registry leaves in the rows and the log, and what the access check answers. */
module AccessRequests {
  import opened Common
  import opened AccessRegistry
  import opened TextOrder

  /** A table by key: what `FindApp` finds is the row itself. */
  lemma RowIs(actions: seq<Action>, key: string)
    ensures var apps := Run(EMPTY, actions).apps;
      && (FindApp(apps, key).None? <==> forall row :: row in apps ==> row.key != key)
      && (forall row :: row in apps && row.key == key ==> FindApp(apps, key) == Some(row))
  {
    var apps := Run(EMPTY, actions).apps;
    RunKeepsUnique(actions);
    forall row | row in apps && row.key == key ensures FindApp(apps, key) == Some(row) { FindIsMember(apps, row); }
    if FindApp(apps, key).Some? {
      FoundHasKey(apps, key);
      FindIsMember(apps, FindApp(apps, key).value);
    }
  }

  /** Which of the answers a person gets: application first, then its status, then the grant, then its status. */
  lemma CheckAnswer(actions: seq<Action>, identity: Identity, app: string)
    ensures var db := Run(EMPTY, actions);
      var answer, key := CheckAccess(db, identity, app), GrantKey(identity, app);
      && (answer == UnknownApplication <==> forall row :: row in db.apps ==> row.key != app)
      && forall row :: row in db.apps && row.key == app ==>
           answer ==
             if row.status == Retired then ApplicationInactive
             else if key !in db.grants then NoGrant
             else if db.grants[key].status == Withdrawn then GrantRevoked
             else ActiveGrant
  {
    RowIs(actions, app);
  }

  /** The workspace goes by name, and by key where names are equal. */
  lemma WorkspaceOrder(actions: seq<Action>, identity: Identity, i: nat, j: nat)
    requires i < j < |Authorized(Run(EMPTY, actions), identity)|
    ensures var list := Authorized(Run(EMPTY, actions), identity);
      || TextLess(list[i].name, list[j].name)
      || (list[i].name == list[j].name && TextLess(list[i].key, list[j].key))
  {
    var list := Authorized(Run(EMPTY, actions), identity);
    WorkspaceIsTheCheck(actions, identity, "");
    assert ByNameThenKey(list[i], list[j]) && list[i].key != list[j].key;
  }

  lemma {:induction false} PutIs(apps: seq<AppRow>, row: AppRow)
    requires UniqueKeys(apps)
    ensures forall x :: x in PutApp(apps, row) <==> x == row || (x in apps && x.key != row.key)
  {
    if apps != [] {
      PutIs(apps[1..], row);
      assert apps == [apps[0]] + apps[1..];
      if apps[0].key == row.key {
        forall x | x in apps[1..] ensures x.key != row.key {
          var j :| 0 <= j < |apps[1..]| && apps[1..][j] == x;
          assert apps[j + 1] == x;
        }
      }
    }
  }

  /** Every other row stays, and there is this one. */
  ghost predicate RowWritten(apps: seq<AppRow>, apps': seq<AppRow>, row: AppRow) {
    forall x :: x in apps' <==> x == row || (x in apps && x.key != row.key)
  }

  /** An upsert writes what it is given; governance fields it is not given stay, or are empty in a new row. */
  lemma UpsertDoes(actions: seq<Action>, input: AppInput, before: Governance)
    requires var apps := Run(EMPTY, actions).apps;
      || (exists row :: row in apps && row.key == input.key && row.governance == before)
      || ((forall row :: row in apps ==> row.key != input.key) && before == Governance(None, None, 0))
    ensures var db, db' := Run(EMPTY, actions), Step(Run(EMPTY, actions), Upsert(input));
      && RowWritten(db.apps, db'.apps, AppRow(input.key, input.name, input.url, input.status,
           match input.governance case Some(given) => given case None => before))
      && db'.audit == db.audit + [AppUpserted(input.key, input.status, input.url, input.governance)]
      && db'.grants == db.grants
  {
    RowIs(actions, input.key);
    RunKeepsUnique(actions);
    PutIs(Run(EMPTY, actions).apps, UpsertedRow(Run(EMPTY, actions).apps, input));
  }

  /** A start of the server writes name and address of one application and nothing else. */
  lemma SeedDoes(actions: seq<Action>, url: string, status: AppStatus, governance: Governance)
    requires var apps := Run(EMPTY, actions).apps;
      || (exists row :: row in apps && row.key == "hcis" && row.status == status && row.governance == governance)
      || ((forall row :: row in apps ==> row.key != "hcis")
          && status == Live && governance == Governance(None, None, 0))
    ensures var db, db' := Run(EMPTY, actions), Step(Run(EMPTY, actions), Seed(url));
      && RowWritten(db.apps, db'.apps, AppRow("hcis", "HCIS", url, status, governance))
      && db'.audit == db.audit && db'.grants == db.grants
  {
    RowIs(actions, "hcis");
    RunKeepsUnique(actions);
    PutIs(Run(EMPTY, actions).apps, SeededRow(Run(EMPTY, actions).apps, url));
  }

  /** A grant or its withdrawal replaces what the person had on that application, and is recorded with its target. */
  lemma SetAccessDoes(actions: seq<Action>, identity: Identity, app: string, grant: Grant)
    ensures var db, db' := Run(EMPTY, actions), Step(Run(EMPTY, actions), SetAccess(identity, app, grant));
      if forall row :: row in db.apps ==> row.key != app then db' == db
      else
        && db'.apps == db.apps && db'.grants == db.grants[GrantKey(identity, app) := grant]
        && db'.audit == db.audit + [AccessSet(identity.issuer + "|" + identity.subject + "|" + app, app, grant)]
  {
    RowIs(actions, app);
  }

  /** The launcher leaves out the row of SQ Hub itself, by its key or because it opens at the same origin. */
  lemma LaunchableIff(row: AppRow, hub: Option<string>, origin: string -> Option<string>)
    ensures Launchable(row, hub, origin) <==>
      row.key != "sq-hub"
      && (hub == None || hub == Some("") || origin(row.url) == None || origin(row.url) != origin(hub.value))
  {
  }
}
