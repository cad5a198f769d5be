/**
 * The migration runner: one locked transaction per file, in the order of the file names, with any
 * number of runners at work on one database and any of them dying at any point.
 */
module Migrations {
  import opened TextOrder

  /** A checksum stands for the script it was taken from. */
  datatype File = File(name: string, script: string)

  /** `schema` is every script that was committed, in order; `applied` is `schema_migrations`. */
  datatype Db = Db(schema: seq<string>, applied: map<string, string>)

  datatype Attempt = Advanced(db: Db) | ChecksumChanged | ScriptFailed

  /** One transaction, under the advisory lock. */
  function Handle(db: Db, file: File, works: bool): Attempt {
    if file.name in db.applied then
      if db.applied[file.name] == file.script then Advanced(db) else ChecksumChanged
    else if works then Advanced(Db(db.schema + [file.script], db.applied[file.name := file.script]))
    else ScriptFailed
  }

  datatype Runner = Running(next: nat) | Stopped

  type RunnerId = nat

  datatype Sys = Sys(db: Db, runners: map<RunnerId, Runner>)

  datatype Action =
    | Launch(runner: RunnerId)
    | HandleNext(runner: RunnerId, works: bool)
    | Crash(runner: RunnerId)

  function Step(sys: Sys, files: seq<File>, a: Action): Sys {
    match a
    case Launch(r) => if r in sys.runners then sys else sys.(runners := sys.runners[r := Running(0)])
    case Crash(r) => if r in sys.runners then sys.(runners := sys.runners[r := Stopped]) else sys
    case HandleNext(r, works) =>
      if r in sys.runners && sys.runners[r].Running? && sys.runners[r].next < |files| then
        match Handle(sys.db, files[sys.runners[r].next], works)
        case Advanced(db) => Sys(db, sys.runners[r := Running(sys.runners[r].next + 1)])
        case ChecksumChanged => sys.(runners := sys.runners[r := Stopped])
        case ScriptFailed => sys.(runners := sys.runners[r := Stopped])
      else sys
  }

  function Run(sys: Sys, files: seq<File>, actions: seq<Action>): Sys
    decreases |actions|
  {
    if actions == [] then sys else Run(Step(sys, files, actions[0]), files, actions[1..])
  }

  /** The runner's file list: the directory's names sorted, so each once. */
  ghost predicate Listed(files: seq<File>) {
    forall i, j :: 0 <= i < j < |files| ==> TextLess(files[i].name, files[j].name)
  }

  lemma ListedNamesDiffer(files: seq<File>, i: nat, j: nat)
    requires Listed(files) && i < |files| && j < |files| && files[i].name == files[j].name
    ensures i == j
  {
    if i != j { TextLessTrichotomy(files[i].name, files[j].name); }
  }

  function Scripts(files: seq<File>): seq<string> {
    seq(|files|, i requires 0 <= i < |files| => files[i].script)
  }

  /** The first `k` files were applied in order, each once, and nothing else was. */
  ghost predicate PrefixApplied(db: Db, files: seq<File>, k: nat) {
    && k <= |files|
    && db.schema == Scripts(files[..k])
    && (forall name :: name in db.applied <==> exists i :: 0 <= i < k && files[i].name == name)
    && (forall i :: 0 <= i < k ==> files[i].name in db.applied && db.applied[files[i].name] == files[i].script)
  }

  ghost predicate RunnersWithin(sys: Sys, k: nat) {
    forall r :: r in sys.runners && sys.runners[r].Running? ==> sys.runners[r].next <= k
  }

  lemma NextIsUnapplied(db: Db, files: seq<File>, k: nat)
    requires Listed(files) && PrefixApplied(db, files, k) && k < |files|
    ensures files[k].name !in db.applied
  {
    forall i | 0 <= i < k ensures files[i].name != files[k].name {
      if files[i].name == files[k].name { ListedNamesDiffer(files, i, k); }
    }
  }

  lemma ApplyingExtendsPrefix(db: Db, files: seq<File>, k: nat)
    requires Listed(files) && PrefixApplied(db, files, k) && k < |files|
    ensures Handle(db, files[k], true).Advanced? && PrefixApplied(Handle(db, files[k], true).db, files, k + 1)
  {
    NextIsUnapplied(db, files, k);
    var next := Handle(db, files[k], true).db;
    assert Scripts(files[..k + 1]) == Scripts(files[..k]) + [files[k].script];
    forall name ensures name in next.applied <==> exists i :: 0 <= i < k + 1 && files[i].name == name {
      if name in db.applied {
        var i :| 0 <= i < k && files[i].name == name;
        assert i < k + 1;
      }
      assert files[k].name in next.applied;
    }
  }

  /** The transaction on file `next`, which is at most the first one that is missing. */
  lemma HandleKeepsPrefix(db: Db, files: seq<File>, next: nat, works: bool, k: nat)
    requires Listed(files) && PrefixApplied(db, files, k) && next <= k && next < |files|
    ensures match Handle(db, files[next], works)
      case Advanced(after) => PrefixApplied(after, files, if next == k then k + 1 else k)
      case ChecksumChanged => false
      case ScriptFailed => next == k && !works
  {
    if next < k {
      assert files[next].name in db.applied;
    } else {
      NextIsUnapplied(db, files, k);
      if works { ApplyingExtendsPrefix(db, files, k); }
    }
  }

  lemma StepKeepsPrefix(sys: Sys, files: seq<File>, a: Action, k: nat) returns (k': nat)
    requires Listed(files) && PrefixApplied(sys.db, files, k) && RunnersWithin(sys, k)
    ensures k <= k' <= k + 1
    ensures PrefixApplied(Step(sys, files, a).db, files, k') && RunnersWithin(Step(sys, files, a), k')
  {
    k' := k;
    if a.HandleNext? && a.runner in sys.runners && sys.runners[a.runner].Running? &&
      sys.runners[a.runner].next < |files| {
      var next := sys.runners[a.runner].next;
      HandleKeepsPrefix(sys.db, files, next, a.works, k);
      if next == k && a.works { k' := k + 1; }
    }
  }

  /**
   * Whatever the runners do and wherever they die, the schema is the scripts of a beginning of the
   * list, in order, each applied exactly once, and no runner is ahead of it.
   */
  lemma {:induction false} SchemaIsAPrefix(sys: Sys, files: seq<File>, actions: seq<Action>, k: nat) returns (k': nat)
    requires Listed(files) && PrefixApplied(sys.db, files, k) && RunnersWithin(sys, k)
    ensures k <= k' && PrefixApplied(Run(sys, files, actions).db, files, k') &&
      RunnersWithin(Run(sys, files, actions), k')
    decreases |actions|
  {
    if actions == [] {
      k' := k;
    } else {
      var mid := StepKeepsPrefix(sys, files, actions[0], k);
      k' := SchemaIsAPrefix(Step(sys, files, actions[0]), files, actions[1..], mid);
    }
  }

  /** A release that only adds later files starts from where the last one stopped. */
  lemma LaterFilesExtend(db: Db, files: seq<File>, more: seq<File>, k: nat)
    requires PrefixApplied(db, files, k)
    ensures PrefixApplied(db, files + more, k)
  {
    assert (files + more)[..k] == files[..k];
    forall name ensures name in db.applied <==> exists i :: 0 <= i < k && (files + more)[i].name == name {
      if name in db.applied {
        var i :| 0 <= i < k && files[i].name == name;
        assert (files + more)[i].name == name;
      }
      if i :| 0 <= i < k && (files + more)[i].name == name {
        assert files[i].name == name;
      }
    }
  }

  // ------------------------------------------------------------------- edited files, any database

  ghost predicate AppliedAsListed(db: Db, files: seq<File>, k: nat) {
    k <= |files| && forall i :: 0 <= i < k ==>
      files[i].name in db.applied && db.applied[files[i].name] == files[i].script
  }

  ghost predicate RunnersChecked(sys: Sys, files: seq<File>) {
    forall r :: r in sys.runners && sys.runners[r].Running? ==> AppliedAsListed(sys.db, files, sys.runners[r].next)
  }

  lemma AppliedOnlyGrows(db: Db, file: File, works: bool, files: seq<File>, k: nat)
    requires AppliedAsListed(db, files, k) && Handle(db, file, works).Advanced?
    ensures AppliedAsListed(Handle(db, file, works).db, files, k)
  {
  }

  lemma StepKeepsChecked(sys: Sys, files: seq<File>, a: Action)
    requires RunnersChecked(sys, files)
    ensures RunnersChecked(Step(sys, files, a), files)
  {
    var sys' := Step(sys, files, a);
    forall r | r in sys'.runners && sys'.runners[r].Running?
      ensures AppliedAsListed(sys'.db, files, sys'.runners[r].next)
    {
      if a.HandleNext? && a.runner in sys.runners && sys.runners[a.runner].Running? &&
        sys.runners[a.runner].next < |files| {
        var file := files[sys.runners[a.runner].next];
        if Handle(sys.db, file, a.works).Advanced? {
          if r in sys.runners && sys.runners[r].Running? {
            AppliedOnlyGrows(sys.db, file, a.works, files, sys.runners[r].next);
          }
        }
      }
    }
  }

  /** Starting from any database at all: a runner gets past a file only with exactly this text applied. */
  lemma {:induction false} PassedMeansApplied(sys: Sys, files: seq<File>, actions: seq<Action>)
    requires RunnersChecked(sys, files)
    ensures RunnersChecked(Run(sys, files, actions), files)
    decreases |actions|
  {
    if actions != [] {
      StepKeepsChecked(sys, files, actions[0]);
      PassedMeansApplied(Step(sys, files, actions[0]), files, actions[1..]);
    }
  }

  // ---------------------------------------------------------------------------------- one runner

  /** How far one runner gets on its own when exactly the scripts in `broken` fail. */
  function Migrated(db: Db, files: seq<File>, broken: set<string>): (Db, bool)
    decreases |files|
  {
    if files == [] then (db, true)
    else
      match Handle(db, files[0], files[0].script !in broken)
      case Advanced(next) => Migrated(next, files[1..], broken)
      case ChecksumChanged => (db, false)
      case ScriptFailed => (db, false)
  }

  /** The steps of one runner over the files from `from` on. */
  function Alone(r: RunnerId, files: seq<File>, broken: set<string>, from: nat): seq<Action>
    requires from <= |files|
    decreases |files| - from
  {
    if from == |files| then []
    else [HandleNext(r, files[from].script !in broken)] + Alone(r, files, broken, from + 1)
  }

  lemma {:induction false} AloneIs(sys: Sys, r: RunnerId, files: seq<File>, broken: set<string>, from: nat)
    requires from <= |files| && r in sys.runners && sys.runners[r] in {Running(from), Stopped}
    ensures var end := Run(sys, files, Alone(r, files, broken, from));
      && r in end.runners
      && if sys.runners[r] == Stopped then end == sys
         else (end.db, end.runners[r] == Running(|files|)) == Migrated(sys.db, files[from..], broken)
    decreases |files| - from
  {
    if from < |files| {
      var rest := Alone(r, files, broken, from + 1);
      var a := HandleNext(r, files[from].script !in broken);
      assert Alone(r, files, broken, from)[1..] == rest;
      assert files[from..][0] == files[from] && files[from..][1..] == files[from + 1..];
      if sys.runners[r] == Stopped {
        AloneIs(sys, r, files, broken, from + 1);
      } else {
        AloneIs(Step(sys, files, a), r, files, broken, from + 1);
      }
    }
  }

  /**
   * A runner that is launched and left alone does what the loop does, on whatever database the others left;
   * it gets past the last file exactly if the loop ends well.
   */
  lemma LaunchedAloneIsTheLoop(sys: Sys, r: RunnerId, files: seq<File>, broken: set<string>)
    requires r !in sys.runners
    ensures var end := Run(Step(sys, files, Launch(r)), files, Alone(r, files, broken, 0));
      r in end.runners && (end.db, end.runners[r] == Running(|files|)) == Migrated(sys.db, files, broken)
  {
    AloneIs(Step(sys, files, Launch(r)), r, files, broken, 0);
    assert files[0..] == files;
  }

  /** A runner that died does nothing any more, and its death changes nothing else. */
  lemma CrashedIsGone(sys: Sys, files: seq<File>, r: RunnerId, works: bool)
    ensures var sys' := Step(sys, files, Crash(r));
      && sys' == Sys(sys.db, if r in sys.runners then sys.runners[r := Stopped] else sys.runners)
      && Step(sys', files, HandleNext(r, works)) == sys'
      && (r in sys.runners ==> Step(sys', files, Launch(r)) == sys')
  {
  }

  lemma {:induction false} SuccessMeansAllApplied(db: Db, files: seq<File>, broken: set<string>)
    requires Migrated(db, files, broken).1
    ensures AppliedAsListed(Migrated(db, files, broken).0, files, |files|)
    ensures forall name :: name in db.applied ==>
      name in Migrated(db, files, broken).0.applied && Migrated(db, files, broken).0.applied[name] == db.applied[name]
    decreases |files|
  {
    if files != [] {
      var next := Handle(db, files[0], files[0].script !in broken).db;
      SuccessMeansAllApplied(next, files[1..], broken);
      var end := Migrated(db, files, broken).0;
      forall i | 0 <= i < |files|
        ensures files[i].name in end.applied && end.applied[files[i].name] == files[i].script
      {
        if i > 0 { assert files[1..][i - 1] == files[i]; }
      }
    }
  }

  /** Running again over the same files changes nothing. */
  lemma {:induction false} AgainChangesNothing(db: Db, files: seq<File>, broken: set<string>)
    requires AppliedAsListed(db, files, |files|)
    ensures Migrated(db, files, broken) == (db, true)
    decreases |files|
  {
    if files != [] {
      forall i | 0 <= i < |files[1..]|
        ensures files[1..][i].name in db.applied && db.applied[files[1..][i].name] == files[1..][i].script
      {
        assert files[1..][i] == files[i + 1];
      }
      AgainChangesNothing(db, files[1..], broken);
    }
  }

  class Database {
    var schema: seq<string>
    var applied: map<string, string>

    function Tables(): Db
      reads this
    {
      Db(schema, applied)
    }

    /** The loop over the sorted files; false is the error that ends it. */
    method Migrate(files: seq<File>, broken: set<string>) returns (ok: bool)
      modifies this
      ensures (Tables(), ok) == Migrated(old(Tables()), files, broken)
      ensures ok ==> AppliedAsListed(Tables(), files, |files|)
    {
      var i := 0;
      while i < |files|
        invariant 0 <= i <= |files|
        invariant Migrated(Tables(), files[i..], broken) == Migrated(old(Tables()), files, broken)
      {
        var file := files[i];
        assert files[i..][0] == file && files[i..][1..] == files[i + 1..];
        if file.name in applied {
          if applied[file.name] != file.script { return false; }
        } else {
          if file.script in broken { return false; }
          schema := schema + [file.script];
          applied := applied[file.name := file.script];
        }
        i := i + 1;
      }
      ok := true;
      SuccessMeansAllApplied(old(Tables()), files, broken);
    }
  }
}
