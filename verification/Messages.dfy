/**
 * Edits and deletions of one stored message: the body, what it replaced, and who changed it.  The
 * officer's request and the engine's echo of it may be stored in either order.
 */
module Messages {
  import opened Common

  type Body = string
  type ChangedBy = string

  const BY_PHONE: ChangedBy := "hp"
  const FIVE_MINUTES := 5 * 60 * 1000

  /** One replaced body, in the order the rows were inserted. */
  datatype Edit = Edit(body: Option<Body>, changedBy: ChangedBy, at: int)

  datatype Deletion = Deletion(at: int, deletedBy: ChangedBy)

  datatype Message = Message(body: Option<Body>, editedAt: Option<int>, history: seq<Edit>, deletion: Option<Deletion>)

  /** An edit without a text, or with an empty one, keeps the body but still leaves a history row. */
  predicate Blank(text: Option<Body>) {
    text.None? || text.value == ""
  }

  predicate EditChanges(m: Message, text: Option<Body>) {
    m.deletion.None? && (text.None? || m.body != text)
  }

  function RecordEdit(m: Message, text: Option<Body>, at: int, by_: ChangedBy): Message {
    if !EditChanges(m, text) then m
    else m.(
      body := if Blank(text) then m.body else text,
      editedAt := Some(at),
      history := m.history + [Edit(m.body, by_, at)])
  }

  function RecordDelete(m: Message, at: int, by_: ChangedBy): Message {
    if m.deletion.Some? then m else m.(deletion := Some(Deletion(at, by_)))
  }

  // --------------------------------------------------------------------------- officers and echoes

  /** `ORDER BY diganti_at DESC, created_at DESC LIMIT 1`; rows are created in list order. */
  function Latest(history: seq<Edit>): (k: nat)
    requires history != []
    ensures k < |history|
    ensures forall i :: 0 <= i < |history| ==> history[i].at <= history[k].at
    ensures forall i :: k < i < |history| ==> history[i].at < history[k].at
  {
    var n := |history| - 1;
    if n == 0 then 0
    else
      var k := Latest(history[..n]);
      if history[k].at <= history[n].at then n else k
  }

  predicate Recent(at: int, now: int) {
    at > now - FIVE_MINUTES
  }

  function ReattributeEdit(m: Message, officer: ChangedBy, now: int): Message {
    if m.history == [] then m
    else
      var k := Latest(m.history);
      var row := m.history[k];
      if row.changedBy == BY_PHONE && Recent(row.at, now) then m.(history := m.history[k := row.(changedBy := officer)])
      else m
  }

  function ReattributeDelete(m: Message, officer: ChangedBy, now: int): Message {
    match m.deletion
    case None => m
    case Some(deletion) =>
      if deletion.deletedBy == BY_PHONE && Recent(deletion.at, now) then
        m.(deletion := Some(deletion.(deletedBy := officer)))
      else m
  }

  /** The officer's stored change, once the engine accepted it. */
  function OfficerEdit(m: Message, text: Body, officer: ChangedBy, now: int): Message {
    if EditChanges(m, Some(text)) then RecordEdit(m, Some(text), now, officer) else ReattributeEdit(m, officer, now)
  }

  function OfficerDelete(m: Message, officer: ChangedBy, now: int): Message {
    if m.deletion.None? then RecordDelete(m, now, officer) else ReattributeDelete(m, officer, now)
  }

  function EchoEdit(m: Message, text: Body, at: int): Message {
    RecordEdit(m, Some(text), at, BY_PHONE)
  }

  function EchoDelete(m: Message, at: int): Message {
    RecordDelete(m, at, BY_PHONE)
  }

  // -------------------------------------------------------------------------------- runs of changes

  /** What the engine reports, of the phone or of anyone in the chat, and what an officer asked for. */
  datatype Change =
    | Text(text: Option<Body>, at: int, changedBy: ChangedBy)
    | Delete(at: int, changedBy: ChangedBy)
    | OfficerText(words: Body, now: int, officer: ChangedBy)
    | OfficerRemove(now: int, officer: ChangedBy)

  function Apply(m: Message, c: Change): Message {
    match c
    case Text(text, at, by_) => RecordEdit(m, text, at, by_)
    case Delete(at, by_) => RecordDelete(m, at, by_)
    case OfficerText(words, now, officer) => OfficerEdit(m, words, officer, now)
    case OfficerRemove(now, officer) => OfficerDelete(m, officer, now)
  }

  function ApplyAll(m: Message, changes: seq<Change>): Message {
    if changes == [] then m else Apply(ApplyAll(m, changes[..|changes| - 1]), changes[|changes| - 1])
  }

  predicate Deletes(c: Change) {
    c.Delete? || c.OfficerRemove?
  }

  function TextOf(c: Change): Option<Body>
    requires !Deletes(c)
  {
    if c.Text? then c.text else Some(c.words)
  }

  function HistoryBodies(history: seq<Edit>): seq<Option<Body>> {
    seq(|history|, i requires 0 <= i < |history| => history[i].body)
  }

  /** Every body the message has had, oldest first, the current one last. */
  function Bodies(m: Message): seq<Option<Body>> {
    HistoryBodies(m.history) + [m.body]
  }

  lemma ReattributeKeepsBodies(m: Message, officer: ChangedBy, now: int)
    ensures Bodies(ReattributeEdit(m, officer, now)) == Bodies(m)
    ensures ReattributeEdit(m, officer, now).deletion == m.deletion
  {
    assert HistoryBodies(ReattributeEdit(m, officer, now).history) == HistoryBodies(m.history);
  }

  // ------------------------------------------------------------------------- nothing is ever lost

  /** The bodies asked for before the first deletion. */
  function Asked(changes: seq<Change>): seq<Option<Body>> {
    if changes == [] || Deletes(changes[0]) then [] else [TextOf(changes[0])] + Asked(changes[1..])
  }

  /** Adjacent repeats removed. */
  function Squeeze<T(==)>(s: seq<T>): seq<T> {
    if |s| <= 1 then s
    else if s[0] == s[1] then Squeeze(s[1..])
    else [s[0]] + Squeeze(s[1..])
  }

  ghost predicate NoBlanks(changes: seq<Change>) {
    forall i :: 0 <= i < |changes| && !Deletes(changes[i]) ==> !Blank(TextOf(changes[i]))
  }

  lemma SqueezeCons<T>(a: T, rest: seq<T>)
    requires rest != []
    ensures Squeeze([a] + rest) == if a == rest[0] then Squeeze(rest) else [a] + Squeeze(rest)
  {
    assert ([a] + rest)[1..] == rest;
  }

  lemma {:induction false} SqueezeAppend<T>(s: seq<T>, x: T)
    requires s != []
    ensures Squeeze(s + [x]) == if s[|s| - 1] == x then Squeeze(s) else Squeeze(s) + [x]
    ensures Squeeze(s) != [] && Squeeze(s)[|Squeeze(s)| - 1] == s[|s| - 1]
    decreases |s|
  {
    if |s| == 1 {
      assert s + [x] == [s[0]] + [x];
      SqueezeCons(s[0], [x]);
    } else {
      var a, rest := s[0], s[1..];
      assert s == [a] + rest && s + [x] == [a] + (rest + [x]);
      SqueezeCons(a, rest);
      SqueezeCons(a, rest + [x]);
      SqueezeAppend(rest, x);
      assert [a] + (Squeeze(rest) + [x]) == [a] + Squeeze(rest) + [x];
    }
  }

  ghost predicate HasDelete(changes: seq<Change>) {
    exists i :: 0 <= i < |changes| && Deletes(changes[i])
  }

  lemma HasDeleteAppend(changes: seq<Change>, c: Change)
    ensures HasDelete(changes + [c]) <==> HasDelete(changes) || Deletes(c)
  {
    var all := changes + [c];
    if HasDelete(changes) {
      var i :| 0 <= i < |changes| && Deletes(changes[i]);
      assert Deletes(all[i]);
    }
    if Deletes(c) { assert Deletes(all[|changes|]); }
    if HasDelete(all) {
      var i :| 0 <= i < |all| && Deletes(all[i]);
      assert i < |changes| ==> Deletes(changes[i]);
    }
  }

  lemma HasDeleteCons(changes: seq<Change>)
    requires changes != []
    ensures HasDelete(changes) <==> Deletes(changes[0]) || HasDelete(changes[1..])
  {
    if HasDelete(changes) && !Deletes(changes[0]) {
      var i :| 0 <= i < |changes| && Deletes(changes[i]);
      assert Deletes(changes[1..][i - 1]);
    }
    if HasDelete(changes[1..]) {
      var i :| 0 <= i < |changes[1..]| && Deletes(changes[1..][i]);
      assert Deletes(changes[i + 1]);
    }
  }

  lemma {:induction false} AskedAppend(changes: seq<Change>, c: Change)
    ensures Asked(changes + [c]) ==
      if HasDelete(changes) || Deletes(c) then Asked(changes) else Asked(changes) + [TextOf(c)]
    decreases |changes|
  {
    if changes == [] {
      assert (changes + [c])[1..] == [];
    } else {
      assert (changes + [c])[1..] == changes[1..] + [c];
      HasDeleteCons(changes);
      AskedAppend(changes[1..], c);
    }
  }

  lemma {:induction false} DeletedIff(m: Message, changes: seq<Change>)
    requires m.deletion.None?
    ensures ApplyAll(m, changes).deletion.Some? <==> HasDelete(changes)
    decreases |changes|
  {
    if changes != [] {
      var n := |changes| - 1;
      DeletedIff(m, changes[..n]);
      assert changes == changes[..n] + [changes[n]];
      HasDeleteAppend(changes[..n], changes[n]);
    }
  }

  lemma BodiesAfterEdit(m: Message, c: Change)
    requires !Deletes(c)
    ensures Bodies(Apply(m, c)) ==
      if !EditChanges(m, TextOf(c)) then Bodies(m)
      else Bodies(m) + [if Blank(TextOf(c)) then m.body else TextOf(c)]
  {
    if EditChanges(m, TextOf(c)) {
      assert HistoryBodies(Apply(m, c).history) == HistoryBodies(m.history) + [m.body];
    } else if c.OfficerText? {
      ReattributeKeepsBodies(m, c.officer, c.now);
    }
  }

  /**
   * For every run of edits with a text and deletions, of officers and from the engine: the kept bodies
   * followed by the current one are the bodies before the run followed by those asked for, adjacent
   * repeats removed, up to the first deletion.
   */
  lemma {:induction false} HistoryKeepsEveryBody(m: Message, changes: seq<Change>)
    requires m.deletion.None? && NoBlanks(changes)
    ensures Bodies(ApplyAll(m, changes)) == HistoryBodies(m.history) + Squeeze([m.body] + Asked(changes))
    decreases |changes|
  {
    if changes == [] {
      assert [m.body] + Asked(changes) == [m.body];
    } else {
      var n := |changes| - 1;
      var before, c := changes[..n], changes[n];
      assert changes == before + [c];
      forall i | 0 <= i < |before| && !Deletes(before[i]) ensures !Blank(TextOf(before[i])) {
        assert !Deletes(changes[i]);
      }
      HistoryKeepsEveryBody(m, before);
      DeletedIff(m, before);
      AskedAppend(before, c);
      if Deletes(c) {
        assert Bodies(ApplyAll(m, changes)) == Bodies(ApplyAll(m, before));
      } else if HasDelete(before) {
        BodiesAfterEdit(ApplyAll(m, before), c);
      } else {
        assert [m.body] + Asked(changes) == ([m.body] + Asked(before)) + [TextOf(c)];
        OneMoreBody(ApplyAll(m, before), c, HistoryBodies(m.history), [m.body] + Asked(before));
      }
    }
  }

  lemma OneMoreBody(mid: Message, c: Change, kept: seq<Option<Body>>, asked: seq<Option<Body>>)
    requires mid.deletion.None? && !Deletes(c) && !Blank(TextOf(c)) && asked != []
    requires Bodies(mid) == kept + Squeeze(asked)
    ensures Bodies(Apply(mid, c)) == kept + Squeeze(asked + [TextOf(c)])
  {
    BodiesAfterEdit(mid, c);
    SqueezeAppend(asked, TextOf(c));
    LastOfTwo(kept, Squeeze(asked), HistoryBodies(mid.history), mid.body);
    assert kept + (Squeeze(asked) + [TextOf(c)]) == kept + Squeeze(asked) + [TextOf(c)];
  }

  lemma LastOfTwo(a: seq<Option<Body>>, b: seq<Option<Body>>, front: seq<Option<Body>>, last: Option<Body>)
    requires b != [] && a + b == front + [last]
    ensures b[|b| - 1] == last
  {
    var all := a + b;
    assert all[|all| - 1] == b[|b| - 1];
  }

  /** The texts given before the first deletion, blank ones left out. */
  function Given(changes: seq<Change>): seq<Option<Body>> {
    if changes == [] || Deletes(changes[0]) then []
    else (if Blank(TextOf(changes[0])) then [] else [TextOf(changes[0])]) + Given(changes[1..])
  }

  lemma {:induction false} GivenAppend(changes: seq<Change>, c: Change)
    ensures Given(changes + [c]) ==
      if HasDelete(changes) || Deletes(c) || Blank(TextOf(c)) then Given(changes) else Given(changes) + [TextOf(c)]
    decreases |changes|
  {
    if changes == [] {
      assert (changes + [c])[1..] == [];
    } else {
      assert (changes + [c])[1..] == changes[1..] + [c];
      HasDeleteCons(changes);
      GivenAppend(changes[1..], c);
    }
  }

  function Told<T(==)>(squeezed: seq<T>, x: T): seq<T> {
    if squeezed != [] && squeezed[|squeezed| - 1] == x then squeezed else squeezed + [x]
  }

  lemma SqueezeNext<T>(s: seq<T>, x: T)
    requires s != []
    ensures Squeeze(s + [x]) == Told(Squeeze(s), x)
    ensures s[|s| - 1] == x ==> Squeeze(s + [x]) == Squeeze(s)
  {
    SqueezeAppend(s, x);
  }

  lemma OneMoreGiven(mid: Message, c: Change, all: seq<Option<Body>>)
    requires mid.deletion.None? && !Deletes(c) && all != [] && Squeeze(Bodies(mid)) == Squeeze(all)
    ensures Squeeze(Bodies(Apply(mid, c))) == Squeeze(if Blank(TextOf(c)) then all else all + [TextOf(c)])
  {
    BodiesAfterEdit(mid, c);
    var bodies := Bodies(mid);
    assert bodies[|bodies| - 1] == mid.body;
    if Blank(TextOf(c)) {
      SqueezeNext(bodies, mid.body);
    } else {
      SqueezeNext(bodies, TextOf(c));
      SqueezeNext(all, TextOf(c));
    }
  }

  /** The bodies before, and all texts given since. */
  function Heard(m: Message, changes: seq<Change>): seq<Option<Body>> {
    Bodies(m) + Given(changes)
  }

  lemma HeardNext(m: Message, changes: seq<Change>, c: Change)
    ensures Heard(m, changes) != []
    ensures Heard(m, changes + [c]) ==
      if HasDelete(changes) || Deletes(c) || Blank(TextOf(c)) then Heard(m, changes)
      else Heard(m, changes) + [TextOf(c)]
  {
    GivenAppend(changes, c);
  }

  lemma BodyKeptStep(m: Message, changes: seq<Change>, c: Change)
    requires m.deletion.None? && Squeeze(Bodies(ApplyAll(m, changes))) == Squeeze(Heard(m, changes))
    ensures Squeeze(Bodies(Apply(ApplyAll(m, changes), c))) == Squeeze(Heard(m, changes + [c]))
  {
    var mid := ApplyAll(m, changes);
    HeardNext(m, changes, c);
    DeletedIff(m, changes);
    if Deletes(c) {
      assert Bodies(Apply(mid, c)) == Bodies(mid);
    } else if HasDelete(changes) {
      BodiesAfterEdit(mid, c);
    } else {
      OneMoreGiven(mid, c, Heard(m, changes));
    }
  }

  /** The same with blank edits allowed: adjacent repeats aside, every text ever given is kept, in order. */
  lemma {:induction false} NoBodyIsLost(m: Message, changes: seq<Change>)
    requires m.deletion.None?
    ensures Squeeze(Bodies(ApplyAll(m, changes))) == Squeeze(Bodies(m) + Given(changes))
    decreases |changes|
  {
    if changes == [] {
      assert Bodies(m) + Given(changes) == Bodies(m);
    } else {
      var n := |changes| - 1;
      assert changes == changes[..n] + [changes[n]];
      NoBodyIsLost(m, changes[..n]);
      BodyKeptStep(m, changes[..n], changes[n]);
    }
  }

  /** A row is written once; afterwards at most its "made on the phone" becomes an officer's. */
  predicate RowKept(was: Edit, row: Edit) {
    row.body == was.body && row.at == was.at && (row.changedBy == was.changedBy || was.changedBy == BY_PHONE)
  }

  predicate DeletionKept(was: Deletion, deletion: Deletion) {
    deletion.at == was.at && (deletion.deletedBy == was.deletedBy || was.deletedBy == BY_PHONE)
  }

  lemma StepKeepsRows(m: Message, c: Change)
    ensures var end := Apply(m, c);
      && |m.history| <= |end.history| <= |m.history| + 1
      && (forall i :: 0 <= i < |m.history| ==> RowKept(m.history[i], end.history[i]))
      && (if |m.history| < |end.history| then end.history[|m.history|].body == m.body else end.body == m.body)
      && (m.deletion.Some? ==> end.deletion.Some? && DeletionKept(m.deletion.value, end.deletion.value))
  {
  }

  /**
   * In every run, blank edits and officers' corrections included: no row and no deletion is ever removed
   * or given another text or time, only "made on the phone" ever becomes someone else's, and the first
   * new row keeps the body that was there.
   */
  lemma {:induction false} HistoryOnlyGrows(m: Message, changes: seq<Change>)
    ensures var end := ApplyAll(m, changes);
      && |m.history| <= |end.history|
      && (forall i :: 0 <= i < |m.history| ==> RowKept(m.history[i], end.history[i]))
      && (if |m.history| < |end.history| then end.history[|m.history|].body == m.body else end.body == m.body)
      && (m.deletion.Some? ==> end.deletion.Some? && DeletionKept(m.deletion.value, end.deletion.value))
    decreases |changes|
  {
    if changes != [] {
      var before := ApplyAll(m, changes[..|changes| - 1]);
      HistoryOnlyGrows(m, changes[..|changes| - 1]);
      StepKeepsRows(before, changes[|changes| - 1]);
      var end := ApplyAll(m, changes);
      forall i | 0 <= i < |m.history| ensures RowKept(m.history[i], end.history[i]) {
        assert RowKept(m.history[i], before.history[i]) && RowKept(before.history[i], end.history[i]);
      }
      if |m.history| < |before.history| {
        assert RowKept(before.history[|m.history|], end.history[|m.history|]);
      }
    }
  }

  // ------------------------------------------------------------ the officer's request and its echo

  /** What a reader sees, whoever did it and when: the bodies and whether the message is deleted. */
  datatype Seen = Seen(bodies: seq<Option<Body>>, deleted: bool)

  function SeenOf(m: Message): Seen {
    Seen(Bodies(m), m.deletion.Some?)
  }

  function NextSeen(seen: Seen, c: Change): Seen
    requires seen.bodies != []
  {
    var body := seen.bodies[|seen.bodies| - 1];
    if seen.deleted then seen
    else if Deletes(c) then seen.(deleted := true)
    else if TextOf(c).Some? && body == TextOf(c) then seen
    else seen.(bodies := seen.bodies + [if Blank(TextOf(c)) then body else TextOf(c)])
  }

  /** What is seen next depends on what was seen and what is asked, not on who asks or when. */
  lemma SeenStep(m: Message, c: Change)
    ensures SeenOf(Apply(m, c)) == NextSeen(SeenOf(m), c)
  {
    if Deletes(c) {
      assert HistoryBodies(Apply(m, c).history) == HistoryBodies(m.history);
    } else {
      BodiesAfterEdit(m, c);
    }
  }

  lemma {:induction false} SeenRun(a: Message, b: Message, changes: seq<Change>)
    requires SeenOf(a) == SeenOf(b)
    ensures SeenOf(ApplyAll(a, changes)) == SeenOf(ApplyAll(b, changes))
    decreases |changes|
  {
    if changes != [] {
      var n := |changes| - 1;
      SeenRun(a, b, changes[..n]);
      SeenStep(ApplyAll(a, changes[..n]), changes[n]);
      SeenStep(ApplyAll(b, changes[..n]), changes[n]);
    }
  }

  lemma SeenDeterminesBodies(a: Message, b: Message)
    requires SeenOf(a) == SeenOf(b)
    ensures a.body == b.body && HistoryBodies(a.history) == HistoryBodies(b.history)
    ensures a.deletion.Some? <==> b.deletion.Some?
  {
    var n := |a.history|;
    assert |Bodies(a)| == n + 1 && |Bodies(b)| == |b.history| + 1;
    assert a.body == Bodies(a)[n] == Bodies(b)[n] == b.body;
    assert HistoryBodies(a.history) == Bodies(a)[..n] == Bodies(b)[..n] == HistoryBodies(b.history);
  }

  /**
   * Officer first or echo first, with anything at all stored in between: the body, every kept body and
   * whether the message is deleted are the same.
   */
  lemma EditOrdersConverge(
      m: Message, text: Body, officer: ChangedBy, t: int, e: int, now: int, between: seq<Change>)
    ensures var officerFirst := EchoEdit(ApplyAll(OfficerEdit(m, text, officer, t), between), text, e);
      var echoFirst := OfficerEdit(ApplyAll(EchoEdit(m, text, e), between), text, officer, now);
      && officerFirst.body == echoFirst.body
      && HistoryBodies(officerFirst.history) == HistoryBodies(echoFirst.history)
      && (officerFirst.deletion.Some? <==> echoFirst.deletion.Some?)
  {
    var byOfficer, byEcho := OfficerText(text, t, officer), Text(Some(text), e, BY_PHONE);
    SeenStep(m, byOfficer);
    SeenStep(m, byEcho);
    SeenRun(OfficerEdit(m, text, officer, t), EchoEdit(m, text, e), between);
    SeenStep(ApplyAll(OfficerEdit(m, text, officer, t), between), byEcho);
    SeenStep(ApplyAll(EchoEdit(m, text, e), between), OfficerText(text, now, officer));
    SeenDeterminesBodies(
      EchoEdit(ApplyAll(OfficerEdit(m, text, officer, t), between), text, e),
      OfficerEdit(ApplyAll(EchoEdit(m, text, e), between), text, officer, now));
  }

  lemma EchoIsSilentIff(m: Message, text: Body, e: int)
    ensures EchoEdit(m, text, e) == m <==> m.deletion.Some? || m.body == Some(text)
  {
    if EditChanges(m, Some(text)) {
      assert |EchoEdit(m, text, e).history| == |m.history| + 1;
    }
  }

  /** The last text anyone gave, or `start`. */
  function LastText(start: Option<Body>, changes: seq<Change>): Option<Body> {
    if changes == [] then start
    else
      var c := changes[|changes| - 1];
      if !Deletes(c) && !Blank(TextOf(c)) then TextOf(c) else LastText(start, changes[..|changes| - 1])
  }

  lemma {:induction false} BodyIsLastText(m: Message, changes: seq<Change>)
    requires m.deletion.None? && !HasDelete(changes)
    ensures ApplyAll(m, changes).body == LastText(m.body, changes)
    decreases |changes|
  {
    if changes != [] {
      var n := |changes| - 1;
      assert changes == changes[..n] + [changes[n]];
      HasDeleteAppend(changes[..n], changes[n]);
      BodyIsLastText(m, changes[..n]);
      DeletedIff(m, changes[..n]);
    }
  }

  /**
   * The late echo takes a newer text away exactly when nobody deleted the message and the last text given
   * in between is another one; the newer text then becomes a kept body.
   */
  lemma NewerTextIsReplacedIff(m: Message, text: Body, officer: ChangedBy, t: int, e: int, between: seq<Change>)
    requires m.deletion.None? && text != ""
    ensures var mid := ApplyAll(OfficerEdit(m, text, officer, t), between);
      var end := EchoEdit(mid, text, e);
      && (end.body != mid.body <==> !HasDelete(between) && LastText(Some(text), between) != Some(text))
      && (if end.body == mid.body then end == mid
          else end.body == Some(text) && end.history == mid.history + [Edit(mid.body, BY_PHONE, e)])
  {
    var first := OfficerEdit(m, text, officer, t);
    assert first.body == Some(text) && first.deletion.None?;
    DeletedIff(first, between);
    if !HasDelete(between) { BodyIsLastText(first, between); }
    EchoIsSilentIff(ApplyAll(first, between), text, e);
  }

  /** Equal but for the times. */
  ghost predicate SameUpToTime(a: Message, b: Message) {
    && a.body == b.body && (a.editedAt.Some? <==> b.editedAt.Some?)
    && |a.history| == |b.history|
    && (forall i :: 0 <= i < |a.history| ==>
      a.history[i].body == b.history[i].body && a.history[i].changedBy == b.history[i].changedBy)
    && (a.deletion.Some? <==> b.deletion.Some?)
    && (a.deletion.Some? ==> a.deletion.value.deletedBy == b.deletion.value.deletedBy)
  }

  ghost predicate EngineOnly(changes: seq<Change>) {
    forall i :: 0 <= i < |changes| ==> changes[i].Text? || changes[i].Delete?
  }

  /** The two orders half way: alike but for who made row `n`, which the echo made in `b`. */
  ghost predicate Twins(a: Message, b: Message, n: nat, officer: ChangedBy, e: int) {
    && a.body == b.body && a.deletion == b.deletion && a.editedAt.Some? && b.editedAt.Some?
    && n < |a.history| == |b.history|
    && (forall i :: 0 <= i < |a.history| && i != n ==> a.history[i] == b.history[i])
    && a.history[n].body == b.history[n].body && a.history[n].changedBy == officer
    && b.history[n].changedBy == BY_PHONE && b.history[n].at == e
  }

  lemma {:induction false} TwinsRun(a: Message, b: Message, n: nat, officer: ChangedBy, e: int, changes: seq<Change>)
    requires Twins(a, b, n, officer, e) && EngineOnly(changes)
    ensures Twins(ApplyAll(a, changes), ApplyAll(b, changes), n, officer, e)
    decreases |changes|
  {
    if changes != [] { TwinsRun(a, b, n, officer, e, changes[..|changes| - 1]); }
  }

  lemma TwinsEnd(a: Message, b: Message, n: nat, officer: ChangedBy, e: int, text: Body, now: int)
    requires Twins(a, b, n, officer, e) && officer != BY_PHONE
    ensures SameUpToTime(EchoEdit(a, text, e), OfficerEdit(b, text, officer, now)) <==>
      !EditChanges(b, Some(text)) && Latest(b.history) == n && Recent(e, now)
  {
    var officerFirst, echoFirst := EchoEdit(a, text, e), OfficerEdit(b, text, officer, now);
    assert officerFirst.history[n].changedBy == officer;
    if EditChanges(b, Some(text)) || Latest(b.history) != n || !Recent(e, now) {
      assert echoFirst.history[n].changedBy == BY_PHONE;
    }
  }

  /** The row `Latest` names, told from the times. */
  lemma LatestIs(history: seq<Edit>, n: nat)
    requires n < |history|
    ensures Latest(history) == n <==>
      (forall i :: 0 <= i < n ==> history[i].at <= history[n].at)
      && (forall i :: n < i < |history| ==> history[i].at < history[n].at)
  {
    var k := Latest(history);
    assert history[n].at <= history[k].at;
  }

  /**
   * With only the engine's reports in between, told from the times: the two orders agree on who made what
   * exactly when nothing in between ended on another text, and the echo's row is the latest by its time and
   * at most five minutes old when the officer's request is stored.
   */
  lemma EngineEditAttributionIff(
      m: Message, text: Body, officer: ChangedBy, t: int, e: int, now: int, between: seq<Change>)
    requires m.deletion.None? && m.body != Some(text) && text != "" && officer != BY_PHONE && EngineOnly(between)
    ensures var officerFirst := EchoEdit(ApplyAll(OfficerEdit(m, text, officer, t), between), text, e);
      var mid := ApplyAll(EchoEdit(m, text, e), between);
      var echoFirst := OfficerEdit(mid, text, officer, now);
      SameUpToTime(officerFirst, echoFirst) <==>
        && (HasDelete(between) || LastText(Some(text), between) == Some(text))
        && Recent(e, now)
        && (forall i :: 0 <= i < |m.history| ==> m.history[i].at <= e)
        && (forall i :: |m.history| < i < |mid.history| ==> mid.history[i].at < e)
  {
    var n := |m.history|;
    var a, b := OfficerEdit(m, text, officer, t), EchoEdit(m, text, e);
    assert Twins(a, b, n, officer, e);
    TwinsRun(a, b, n, officer, e, between);
    var mid := ApplyAll(b, between);
    TwinsEnd(ApplyAll(a, between), mid, n, officer, e, text, now);
    OfficerFindsTextIff(m, text, e, between);
    LatestIs(mid.history, n);
    EchoRowStays(m, text, e, between);
  }

  /** Nothing is left for the officer's request to change. */
  lemma OfficerFindsTextIff(m: Message, text: Body, e: int, between: seq<Change>)
    requires m.deletion.None? && m.body != Some(text) && text != ""
    ensures !EditChanges(ApplyAll(EchoEdit(m, text, e), between), Some(text)) <==>
      HasDelete(between) || LastText(Some(text), between) == Some(text)
  {
    var b := EchoEdit(m, text, e);
    DeletedIff(b, between);
    if !HasDelete(between) { BodyIsLastText(b, between); }
  }

  lemma EchoRowStays(m: Message, text: Body, e: int, between: seq<Change>)
    requires m.deletion.None? && m.body != Some(text) && EngineOnly(between)
    ensures var mid, n := ApplyAll(EchoEdit(m, text, e), between), |m.history|;
      n < |mid.history| && mid.history[n].at == e && forall i :: 0 <= i < n ==> mid.history[i] == m.history[i]
  {
    var b := EchoEdit(m, text, e);
    EngineRowsStay(b, between);
    var mid := ApplyAll(b, between);
    forall i | 0 <= i < |b.history| ensures mid.history[i] == b.history[i] {
    }
  }

  /** The engine's reports never touch a row that is there. */
  lemma {:induction false} EngineRowsStay(m: Message, changes: seq<Change>)
    requires EngineOnly(changes)
    ensures m.history <= ApplyAll(m, changes).history
    ensures m.deletion.Some? ==> ApplyAll(m, changes) == m
    decreases |changes|
  {
    if changes != [] { EngineRowsStay(m, changes[..|changes| - 1]); }
  }

  // ------------------------------------------------------------------ other officers in between

  /** Officers are written as issuer and subject, never as the word for the phone. */
  ghost predicate Named(changes: seq<Change>) {
    forall i :: 0 <= i < |changes| && (changes[i].OfficerText? || changes[i].OfficerRemove?) ==>
      changes[i].officer != BY_PHONE
  }

  /** The row this change hands to its officer: it finds its text there already, and the latest row is the phone's. */
  function Credited(m: Message, c: Change): Option<nat> {
    if c.OfficerText? && !EditChanges(m, Some(c.words)) && m.history != [] then
      var k := Latest(m.history);
      if m.history[k].changedBy == BY_PHONE && Recent(m.history[k].at, c.now) then Some(k) else None
    else None
  }

  /** Whom row `i` is handed to in a run, if anyone. */
  function FirstCredit(m: Message, changes: seq<Change>, i: nat): Option<ChangedBy> {
    if changes == [] then None
    else
      var n := |changes| - 1;
      var before := FirstCredit(m, changes[..n], i);
      if before.Some? then before
      else if Credited(ApplyAll(m, changes[..n]), changes[n]) == Some(i) then Some(changes[n].officer)
      else None
  }

  lemma FirstCreditNext(m: Message, changes: seq<Change>, c: Change, i: nat)
    ensures FirstCredit(m, changes + [c], i) ==
      if FirstCredit(m, changes, i).Some? then FirstCredit(m, changes, i)
      else if Credited(ApplyAll(m, changes), c) == Some(i) then Some(c.officer)
      else None
    ensures ApplyAll(m, changes + [c]) == Apply(ApplyAll(m, changes), c)
  {
    assert (changes + [c])[..|changes|] == changes;
  }

  lemma {:induction false} CreditsAreRows(m: Message, changes: seq<Change>, i: nat)
    requires i >= |ApplyAll(m, changes).history|
    ensures FirstCredit(m, changes, i).None?
    decreases |changes|
  {
    if changes != [] {
      var n := |changes| - 1;
      StepKeepsRows(ApplyAll(m, changes[..n]), changes[n]);
      CreditsAreRows(m, changes[..n], i);
    }
  }

  lemma StepMaker(m: Message, c: Change, i: nat)
    requires i < |m.history|
    ensures i < |Apply(m, c).history|
    ensures Apply(m, c).history[i] == m.history[i].(changedBy :=
      if Credited(m, c) == Some(i) then c.officer else m.history[i].changedBy)
  {
  }

  /** The makers of one row in two runs, told from whom it was handed to in each. */
  ghost predicate MakerPair(x: ChangedBy, y: ChangedBy, cx: Option<ChangedBy>, cy: Option<ChangedBy>) {
    && (cx.Some? ==> x == cx.value != BY_PHONE) && (cy.Some? ==> y == cy.value != BY_PHONE)
    && (cx.None? && cy.None? ==> x == y)
    && (cx.Some? && cy.None? ==> y == BY_PHONE) && (cx.None? && cy.Some? ==> x == BY_PHONE)
  }

  /** The two runs so far, who made what aside: alike, but for the time of row `n`. */
  ghost predicate SameShape(a: Message, b: Message, n: nat) {
    && a.body == b.body && a.deletion == b.deletion && a.editedAt.Some? && b.editedAt.Some?
    && n < |a.history| == |b.history| && a.history[n].body == b.history[n].body
    && (forall i :: 0 <= i < |a.history| && i != n ==>
          a.history[i].body == b.history[i].body && a.history[i].at == b.history[i].at)
  }

  /** Who made row `i` in both runs; row `n` is the officer's in the first and was the phone's in the second. */
  ghost predicate SameHands(a0: Message, b0: Message, changes: seq<Change>, n: nat, i: nat, officer: ChangedBy) {
    var a, b := ApplyAll(a0, changes), ApplyAll(b0, changes);
    && i < |a.history| && i < |b.history|
    && (i == n ==> a.history[i].changedBy == officer)
    && MakerPair(if i == n then BY_PHONE else a.history[i].changedBy, b.history[i].changedBy,
         if i == n then None else FirstCredit(a0, changes, i), FirstCredit(b0, changes, i))
  }

  ghost predicate Cousins(a0: Message, b0: Message, changes: seq<Change>, n: nat, officer: ChangedBy) {
    && SameShape(ApplyAll(a0, changes), ApplyAll(b0, changes), n)
    && (forall i :: 0 <= i < |ApplyAll(a0, changes).history| ==> SameHands(a0, b0, changes, n, i, officer))
  }

  lemma MakerPairStep(x: ChangedBy, y: ChangedBy, cx: Option<ChangedBy>, cy: Option<ChangedBy>,
      byX: bool, byY: bool, officer: ChangedBy)
    requires MakerPair(x, y, cx, cy)
    requires byX || byY ==> officer != BY_PHONE
    requires (byX ==> x == BY_PHONE) && (byY ==> y == BY_PHONE)
    ensures MakerPair(if byX then officer else x, if byY then officer else y,
      if cx.Some? then cx else if byX then Some(officer) else None,
      if cy.Some? then cy else if byY then Some(officer) else None)
  {
  }

  lemma ShapeStep(a: Message, b: Message, c: Change, n: nat)
    requires SameShape(a, b, n)
    ensures SameShape(Apply(a, c), Apply(b, c), n)
    ensures |Apply(a, c).history| <= |a.history| + 1
    ensures |Apply(a, c).history| > |a.history| ==>
      Apply(a, c).history[|a.history|].changedBy == Apply(b, c).history[|a.history|].changedBy
  {
  }

  lemma HandsStep(a0: Message, b0: Message, changes: seq<Change>, c: Change, n: nat, i: nat, officer: ChangedBy)
    requires SameHands(a0, b0, changes, n, i, officer)
    requires officer != BY_PHONE && (c.OfficerText? ==> c.officer != BY_PHONE)
    ensures SameHands(a0, b0, changes + [c], n, i, officer)
  {
    var a, b := ApplyAll(a0, changes), ApplyAll(b0, changes);
    FirstCreditNext(a0, changes, c, i);
    FirstCreditNext(b0, changes, c, i);
    StepMaker(a, c, i);
    StepMaker(b, c, i);
    var who := if c.OfficerText? then c.officer else "";
    MakerPairStep(if i == n then BY_PHONE else a.history[i].changedBy, b.history[i].changedBy,
      if i == n then None else FirstCredit(a0, changes, i), FirstCredit(b0, changes, i),
      i != n && Credited(a, c) == Some(i), Credited(b, c) == Some(i), who);
  }

  lemma CousinsStep(a0: Message, b0: Message, changes: seq<Change>, c: Change, n: nat, officer: ChangedBy)
    requires Cousins(a0, b0, changes, n, officer) && officer != BY_PHONE && (c.OfficerText? ==> c.officer != BY_PHONE)
    ensures Cousins(a0, b0, changes + [c], n, officer)
  {
    var a, b := ApplyAll(a0, changes), ApplyAll(b0, changes);
    FirstCreditNext(a0, changes, c, n);
    FirstCreditNext(b0, changes, c, n);
    ShapeStep(a, b, c, n);
    forall i | 0 <= i < |Apply(a, c).history| ensures SameHands(a0, b0, changes + [c], n, i, officer) {
      if i < |a.history| {
        HandsStep(a0, b0, changes, c, n, i, officer);
      } else {
        NewRowHands(a0, b0, changes, c, n, i, officer);
      }
    }
  }

  lemma NewRowHands(a0: Message, b0: Message, changes: seq<Change>, c: Change, n: nat, i: nat, officer: ChangedBy)
    requires SameShape(ApplyAll(a0, changes), ApplyAll(b0, changes), n)
    requires |ApplyAll(a0, changes).history| == i < |Apply(ApplyAll(a0, changes), c).history|
    ensures SameHands(a0, b0, changes + [c], n, i, officer)
  {
    FirstCreditNext(a0, changes, c, i);
    FirstCreditNext(b0, changes, c, i);
    ShapeStep(ApplyAll(a0, changes), ApplyAll(b0, changes), c, n);
    CreditsAreRows(a0, changes, i);
    CreditsAreRows(b0, changes, i);
  }

  lemma {:induction false} CousinsRun(a0: Message, b0: Message, changes: seq<Change>, n: nat, officer: ChangedBy)
    requires Cousins(a0, b0, [], n, officer) && officer != BY_PHONE && Named(changes)
    ensures Cousins(a0, b0, changes, n, officer)
    decreases |changes|
  {
    if changes != [] {
      var k := |changes| - 1;
      CousinsRun(a0, b0, changes[..k], n, officer);
      assert changes == changes[..k] + [changes[k]];
      CousinsStep(a0, b0, changes[..k], changes[k], n, officer);
    }
  }

  /** Row `n`, the echo's, is first handed to the officer; any other to the same one, or no one, in both runs. */
  ghost predicate SameCredit(a0: Message, b0: Message, between: seq<Change>, asked: seq<Change>, n: nat, i: nat,
      officer: ChangedBy)
  {
    if i == n then FirstCredit(b0, asked, n) == Some(officer)
    else FirstCredit(a0, between, i) == FirstCredit(b0, asked, i)
  }

  lemma LastCreditRow(
      a0: Message, b0: Message, between: seq<Change>, n: nat, officer: ChangedBy, text: Body, now: int, i: nat)
    requires Cousins(a0, b0, between, n, officer) && officer != BY_PHONE && i < |ApplyAll(b0, between).history|
    ensures var c := OfficerText(text, now, officer);
      var end := Apply(ApplyAll(b0, between), c);
      && i < |end.history| && end.history[i].body == ApplyAll(a0, between).history[i].body
      && (ApplyAll(a0, between).history[i].changedBy == end.history[i].changedBy <==>
            SameCredit(a0, b0, between, between + [c], n, i, officer))
  {
    var c := OfficerText(text, now, officer);
    var a, b := ApplyAll(a0, between), ApplyAll(b0, between);
    StepMaker(b, c, i);
    FirstCreditNext(b0, between, c, i);
    assert SameHands(a0, b0, between, n, i, officer);
    var x := if i == n then BY_PHONE else a.history[i].changedBy;
    var cx := if i == n then None else FirstCredit(a0, between, i);
    MakerPairStep(
      x, b.history[i].changedBy, cx, FirstCredit(b0, between, i), false, Credited(b, c) == Some(i), officer);
  }

  lemma SameMakersIff(a: Message, b: Message)
    requires a.body == b.body && a.deletion == b.deletion && a.editedAt.Some? && b.editedAt.Some?
    requires |a.history| == |b.history|
    requires forall i :: 0 <= i < |a.history| ==> a.history[i].body == b.history[i].body
    ensures SameUpToTime(a, b) <==>
      forall i :: 0 <= i < |a.history| ==> a.history[i].changedBy == b.history[i].changedBy
  {
  }

  lemma CreditKeepsShape(m: Message, text: Body, officer: ChangedBy, now: int)
    requires !EditChanges(m, Some(text))
    ensures var end := OfficerEdit(m, text, officer, now);
      |end.history| == |m.history| && end.body == m.body && end.deletion == m.deletion && end.editedAt == m.editedAt
  {
  }

  /** The last step of each order, when the text is there: the echo does nothing, the officer may be credited. */
  lemma LastCredit(a0: Message, b0: Message, between: seq<Change>, n: nat, officer: ChangedBy, text: Body, now: int)
    requires Cousins(a0, b0, between, n, officer) && officer != BY_PHONE
    requires !EditChanges(ApplyAll(b0, between), Some(text))
    ensures SameUpToTime(ApplyAll(a0, between), OfficerEdit(ApplyAll(b0, between), text, officer, now)) <==>
      forall i :: 0 <= i < |ApplyAll(b0, between).history| ==>
        SameCredit(a0, b0, between, between + [OfficerText(text, now, officer)], n, i, officer)
  {
    var a, b := ApplyAll(a0, between), ApplyAll(b0, between);
    var end := OfficerEdit(b, text, officer, now);
    CreditKeepsShape(b, text, officer, now);
    forall i | 0 <= i < |a.history|
      ensures a.history[i].body == end.history[i].body
      ensures a.history[i].changedBy == end.history[i].changedBy <==>
        SameCredit(a0, b0, between, between + [OfficerText(text, now, officer)], n, i, officer)
    {
      LastCreditRow(a0, b0, between, n, officer, text, now, i);
    }
    SameMakersIff(a, end);
  }

  /**
   * Whatever anyone did in between, other officers included: the two orders agree on who made what exactly
   * when nothing in between ended on another text, the echo's row is first handed to this officer, and every
   * other row is first handed to the same one, or to no one, in both.
   */
  lemma EditAttributionIff(
      m: Message, text: Body, officer: ChangedBy, t: int, e: int, now: int, between: seq<Change>)
    requires m.deletion.None? && m.body != Some(text) && text != "" && officer != BY_PHONE && Named(between)
    ensures var a, b := OfficerEdit(m, text, officer, t), EchoEdit(m, text, e);
      var asked := between + [OfficerText(text, now, officer)];
      SameUpToTime(EchoEdit(ApplyAll(a, between), text, e), OfficerEdit(ApplyAll(b, between), text, officer, now)) <==>
        && (HasDelete(between) || LastText(Some(text), between) == Some(text))
        && forall i :: 0 <= i < |ApplyAll(b, between).history| ==>
             SameCredit(a, b, between, asked, |m.history|, i, officer)
  {
    var n := |m.history|;
    var a0, b0 := OfficerEdit(m, text, officer, t), EchoEdit(m, text, e);
    assert Cousins(a0, b0, [], n, officer);
    CousinsRun(a0, b0, between, n, officer);
    OfficerFindsTextIff(m, text, e, between);
    var a, b := ApplyAll(a0, between), ApplyAll(b0, between);
    if EditChanges(b, Some(text)) {
      var k := |b.history|;
      assert EchoEdit(a, text, e).history[k].changedBy == BY_PHONE;
      assert OfficerEdit(b, text, officer, now).history[k].changedBy == officer;
    } else {
      LastCredit(a0, b0, between, n, officer, text, now);
    }
  }

  /** The officer to whom a deletion of the phone's is handed: the first who asks within five minutes. */
  function FirstRemover(changes: seq<Change>, at: int): Option<ChangedBy> {
    if changes == [] then None
    else if changes[0].OfficerRemove? && Recent(at, changes[0].now) then Some(changes[0].officer)
    else FirstRemover(changes[1..], at)
  }

  /**
   * Deleting, officer first or echo first: with anything in between the message is deleted with the same
   * bodies; with only the engine's reports in between, the same one is named exactly when the echo is at
   * most five minutes old.
   */
  lemma DeleteOrdersConverge(m: Message, officer: ChangedBy, t: int, e: int, now: int, between: seq<Change>)
    ensures var officerFirst := EchoDelete(ApplyAll(OfficerDelete(m, officer, t), between), e);
      var echoFirst := OfficerDelete(ApplyAll(EchoDelete(m, e), between), officer, now);
      && officerFirst.deletion.Some? && echoFirst.deletion.Some?
      && officerFirst.body == echoFirst.body
      && HistoryBodies(officerFirst.history) == HistoryBodies(echoFirst.history)
      && (m.deletion.None? && officer != BY_PHONE && EngineOnly(between) ==>
            (SameUpToTime(officerFirst, echoFirst) <==> Recent(e, now)))
  {
    var a, b := OfficerDelete(m, officer, t), EchoDelete(m, e);
    SeenStep(m, OfficerRemove(t, officer));
    SeenStep(m, Delete(e, BY_PHONE));
    SeenRun(a, b, between);
    SeenStep(ApplyAll(a, between), Delete(e, BY_PHONE));
    SeenStep(ApplyAll(b, between), OfficerRemove(now, officer));
    SeenDeterminesBodies(EchoDelete(ApplyAll(a, between), e), OfficerDelete(ApplyAll(b, between), officer, now));
    if EngineOnly(between) {
      EngineRowsStay(a, between);
      EngineRowsStay(b, between);
    }
  }

  lemma {:induction false} FirstRemoverNext(changes: seq<Change>, c: Change, at: int)
    ensures FirstRemover(changes + [c], at) ==
      if FirstRemover(changes, at).Some? then FirstRemover(changes, at)
      else if c.OfficerRemove? && Recent(at, c.now) then Some(c.officer)
      else None
    decreases |changes|
  {
    if changes == [] {
      assert (changes + [c])[1..] == [];
    } else {
      assert (changes + [c])[1..] == changes[1..] + [c];
      FirstRemoverNext(changes[1..], c, at);
    }
  }

  /** Both deleted, alike but for who deleted: the officer at once, or whoever the echo was handed to since. */
  ghost predicate DeletedTwins(a: Message, b: Message, officer: ChangedBy, e: int, handed: Option<ChangedBy>) {
    && a == b.(deletion := a.deletion) && a.deletion.Some? && b.deletion.Some?
    && a.deletion.value.deletedBy == officer && b.deletion.value.at == e
    && b.deletion.value.deletedBy == (if handed.Some? then handed.value else BY_PHONE)
    && handed != Some(BY_PHONE)
  }

  lemma {:induction false} DeletedTwinsRun(
      a: Message, b: Message, officer: ChangedBy, e: int, changes: seq<Change>)
    requires DeletedTwins(a, b, officer, e, None) && officer != BY_PHONE && Named(changes)
    ensures DeletedTwins(ApplyAll(a, changes), ApplyAll(b, changes), officer, e, FirstRemover(changes, e))
    decreases |changes|
  {
    if changes != [] {
      var k := |changes| - 1;
      DeletedTwinsRun(a, b, officer, e, changes[..k]);
      assert changes == changes[..k] + [changes[k]];
      FirstRemoverNext(changes[..k], changes[k], e);
    }
  }

  /**
   * Whatever anyone did in between: the two orders of a deletion agree on everything but times exactly when
   * this officer is the first to ask, among all who asked, while the echo is at most five minutes old.
   */
  lemma DeleteAttributionIff(m: Message, officer: ChangedBy, t: int, e: int, now: int, between: seq<Change>)
    requires m.deletion.None? && officer != BY_PHONE && Named(between)
    ensures var officerFirst := EchoDelete(ApplyAll(OfficerDelete(m, officer, t), between), e);
      var echoFirst := OfficerDelete(ApplyAll(EchoDelete(m, e), between), officer, now);
      SameUpToTime(officerFirst, echoFirst) <==>
        FirstRemover(between + [OfficerRemove(now, officer)], e) == Some(officer)
  {
    DeletedTwinsRun(OfficerDelete(m, officer, t), EchoDelete(m, e), officer, e, between);
    FirstRemoverNext(between, OfficerRemove(now, officer), e);
  }

  // ------------------------------------------------------------------------------ the stored row

  class MessageRow {
    var body: Option<Body>
    var editedAt: Option<int>
    var edits: seq<Edit>
    var deletion: Option<Deletion>

    function State(): Message
      reads this
    {
      Message(body, editedAt, edits, deletion)
    }

    method StoreEdit(text: Option<Body>, at: int, changedBy: ChangedBy) returns (changed: bool)
      modifies this
      ensures changed <==> EditChanges(old(State()), text)
      ensures State() == RecordEdit(old(State()), text, at, changedBy)
    {
      if deletion.Some? { return false; }
      if text.Some? && body == text { return false; }
      edits := edits + [Edit(body, changedBy, at)];
      if text.Some? && text.value != "" {
        body := text;
      }
      editedAt := Some(at);
      changed := true;
    }

    method StoreDelete(at: int, deletedBy: ChangedBy) returns (changed: bool)
      modifies this
      ensures changed <==> old(deletion).None?
      ensures State() == RecordDelete(old(State()), at, deletedBy)
    {
      if deletion.Some? { return false; }
      deletion := Some(Deletion(at, deletedBy));
      changed := true;
    }

    /** The latest history row, found by scanning. */
    method FindLatest() returns (k: nat)
      requires edits != []
      ensures k == Latest(edits)
    {
      k := 0;
      for i := 1 to |edits|
        invariant k == Latest(edits[..i])
      {
        assert edits[..i + 1][..i] == edits[..i];
        if edits[k].at <= edits[i].at { k := i; }
      }
      assert edits[..|edits|] == edits;
    }

    /** An officer's edit in one transaction, after the engine took it. */
    method StoreOfficerEdit(text: Body, officer: ChangedBy, now: int)
      modifies this
      ensures State() == OfficerEdit(old(State()), text, officer, now)
    {
      var changed := StoreEdit(Some(text), now, officer);
      if !changed && edits != [] {
        var k := FindLatest();
        if edits[k].changedBy == BY_PHONE && edits[k].at > now - FIVE_MINUTES {
          edits := edits[k := edits[k].(changedBy := officer)];
        }
      }
    }

    method StoreOfficerDelete(officer: ChangedBy, now: int)
      modifies this
      ensures State() == OfficerDelete(old(State()), officer, now)
    {
      var changed := StoreDelete(now, officer);
      if !changed && deletion.value.deletedBy == BY_PHONE && deletion.value.at > now - FIVE_MINUTES {
        deletion := Some(deletion.value.(deletedBy := officer));
      }
    }
  }
}
