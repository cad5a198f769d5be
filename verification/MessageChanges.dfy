/** What one edit, one deletion and one reaction write, column by column. */
module MessageChanges {
  import opened Common
  import opened Messages
  import Reactions

  // --------------------------------------------------------------------------- edits and deletions

  /** An edit of a deleted message, or to the text it has, changes nothing. */
  predicate NothingToEdit(m: Message, text: Option<Body>) {
    m.deletion != None || (text != None && m.body == text)
  }

  /** The history row names what was replaced, by whom and when; a blank text keeps the body. */
  function Edited(m: Message, text: Option<Body>, at: int, changedBy: ChangedBy): Message {
    var body := if text in {None, Some("")} then m.body else text;
    Message(body, Some(at), m.history + [Edit(m.body, changedBy, at)], None)
  }

  lemma EngineEditDoes(m: Message, text: Option<Body>, at: int, changedBy: ChangedBy)
    ensures Apply(m, Text(text, at, changedBy)) ==
      if NothingToEdit(m, text) then m else Edited(m, text, at, changedBy)
    ensures text.Some? ==> EchoEdit(m, text.value, at) == Apply(m, Text(text, at, "hp"))
  {
  }

  lemma EngineDeleteDoes(m: Message, at: int, deletedBy: ChangedBy)
    ensures Apply(m, Delete(at, deletedBy)) ==
      if m.deletion != None then m else Message(m.body, m.editedAt, m.history, Some(Deletion(at, deletedBy)))
    ensures EchoDelete(m, at) == Apply(m, Delete(at, "hp"))
  {
  }

  /** The row changed last: no row is later, and of equally late ones it was inserted last. */
  ghost predicate ChangedLast(history: seq<Edit>, k: nat) {
    && k < |history|
    && forall i :: 0 <= i < |history| && i != k ==>
         history[i].at < history[k].at || (history[i].at == history[k].at && i < k)
  }

  /**
   * An officer's edit is stored like any other.  When there is nothing left to edit and the row changed last
   * came from the phone less than five minutes ago, that row is put in the officer's name instead.
   */
  lemma OfficerEditDoes(m: Message, words: Body, now: int, officer: ChangedBy, k: nat)
    requires m.history == [] || ChangedLast(m.history, k)
    ensures Apply(m, OfficerText(words, now, officer)) ==
      if !NothingToEdit(m, Some(words)) then Edited(m, Some(words), now, officer)
      else if m.history != [] && m.history[k].changedBy == "hp" && now - m.history[k].at < 300_000 then
        Message(m.body, m.editedAt, m.history[k := Edit(m.history[k].body, officer, m.history[k].at)], m.deletion)
      else m
  {
    if m.history != [] { assert Latest(m.history) == k; }
  }

  lemma OfficerDeleteDoes(m: Message, now: int, officer: ChangedBy)
    ensures Apply(m, OfficerRemove(now, officer)) ==
      Message(m.body, m.editedAt, m.history, Some(
        if m.deletion == None then Deletion(now, officer)
        else if m.deletion.value.deletedBy == "hp" && now - m.deletion.value.at < 300_000 then
          Deletion(m.deletion.value.at, officer)
        else m.deletion.value))
  {
  }

  // ------------------------------------------------------------------------------------ reactions

  type Reaction = Reactions.Reaction

  /** Where the reactor's one entry is; the length of the list when there is none. */
  ghost predicate Place(list: seq<Reaction>, reactor: string, k: nat) {
    && k <= |list| && (k < |list| ==> list[k].reactor == reactor)
    && forall i :: 0 <= i < |list| && i != k ==> list[i].reactor != reactor
  }

  function Others(list: seq<Reaction>, k: nat): seq<Reaction>
    requires k <= |list|
  {
    if k < |list| then list[..k] + list[k + 1..] else list
  }

  lemma Absent(list: seq<Reaction>, reactor: string)
    requires forall i :: 0 <= i < |list| ==> list[i].reactor != reactor
    ensures Reactions.Find(list, reactor) == None && Reactions.Without(list, reactor) == list
  {
    Reactions.FindIs(list, reactor);
    Reactions.WithoutIs(list, reactor);
  }

  lemma {:induction false} Present(list: seq<Reaction>, reactor: string, k: nat)
    requires Place(list, reactor, k) && k < |list|
    ensures Reactions.Find(list, reactor) == Some(list[k])
    ensures Reactions.Without(list, reactor) == list[..k] + list[k + 1..]
    decreases |list|
  {
    var rest := list[1..];
    if k == 0 {
      Absent(rest, reactor);
    } else {
      Present(rest, reactor, k - 1);
      assert list[..k] + list[k + 1..] == [list[0]] + (rest[..k - 1] + rest[k..]);
    }
  }

  lemma AtPlace(list: seq<Reaction>, reactor: string, k: nat)
    requires Place(list, reactor, k)
    ensures Reactions.Find(list, reactor) == if k < |list| then Some(list[k]) else None
    ensures Reactions.Without(list, reactor) == Others(list, k)
  {
    if k < |list| { Present(list, reactor, k); } else { Absent(list, reactor); }
  }

  /** An empty reaction takes the reactor's entry out; without one nothing changes. */
  lemma TakingBackDoes(list: seq<Reaction>, r: Reaction, k: nat)
    requires Place(list, r.reactor, k) && r.emoji == ""
    ensures Reactions.NextReactions(list, r) == Reactions.Outcome(Others(list, k), k < |list|)
  {
    AtPlace(list, r.reactor, k);
  }

  /** The emoji that is there already adds the officer's name at most, and is no change. */
  lemma RepeatingDoes(list: seq<Reaction>, r: Reaction, k: nat)
    requires Place(list, r.reactor, k) && k < |list| && r.emoji == list[k].emoji != ""
    ensures Reactions.NextReactions(list, r) == Reactions.Outcome(
      if r.officer in {None, Some("")} then list
      else list[k := Reactions.Reaction(r.reactor, r.emoji, list[k].at, list[k].identity, r.officer)], false)
  {
    AtPlace(list, r.reactor, k);
    if r.officer !in {None, Some("")} {
      assert Reactions.Credit(list, r.reactor, r.officer.value) == list[k := list[k].(officer := r.officer)];
      assert list[k].officer == r.officer ==> list[k := list[k].(officer := r.officer)] == list;
    }
  }

  /** Any other emoji goes behind everybody else's, as it was given; the last 1024 entries stay. */
  lemma ReactingDoes(list: seq<Reaction>, r: Reaction, k: nat)
    requires Place(list, r.reactor, k) && r.emoji != "" && (k < |list| ==> list[k].emoji != r.emoji)
    ensures var all := Others(list, k) + [Reactions.Reaction(r.reactor, r.emoji, r.at,
        if r.identity == Some("") then None else r.identity, if r.officer == Some("") then None else r.officer)];
      Reactions.NextReactions(list, r)
        == Reactions.Outcome(if |all| <= 1024 then all else all[|all| - 1024..], true)
  {
    AtPlace(list, r.reactor, k);
  }

  /** The officer's own reaction and its echo are this number's, with and without the officer's name. */
  lemma OwnReactionsAre(emoji: string, at: int, officer: string)
    ensures Reactions.ByOfficer(emoji, at, officer)
      == Reactions.Reaction("nomor_ini", emoji, at, None, Some(officer))
    ensures Reactions.Echo(emoji, at) == Reactions.Reaction("nomor_ini", emoji, at, None, None)
  {
  }
}
