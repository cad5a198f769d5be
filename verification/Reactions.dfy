/** The reactions on one message: one entry per reactor, oldest change first, at most `MAX_REACTIONS`. */
module Reactions {
  import opened Common

  const MAX_REACTIONS: nat := 1024

  type Reactor = string

  const THIS_NUMBER: Reactor := "nomor_ini"

  datatype Reaction = Reaction(reactor: Reactor, emoji: string, at: int, identity: Option<string>,
      officer: Option<string>)

  datatype Outcome = Outcome(reactions: seq<Reaction>, changed: bool)

  function Find(list: seq<Reaction>, reactor: Reactor): Option<Reaction> {
    if list == [] then None
    else if list[0].reactor == reactor then Some(list[0])
    else Find(list[1..], reactor)
  }

  function Without(list: seq<Reaction>, reactor: Reactor): seq<Reaction> {
    if list == [] then []
    else if list[0].reactor == reactor then Without(list[1..], reactor)
    else [list[0]] + Without(list[1..], reactor)
  }

  function Credit(list: seq<Reaction>, reactor: Reactor, officer: string): seq<Reaction> {
    seq(|list|, i requires 0 <= i < |list| =>
      if list[i].reactor == reactor then list[i].(officer := Some(officer)) else list[i])
  }

  function LastOnes(list: seq<Reaction>): seq<Reaction> {
    if |list| <= MAX_REACTIONS then list else list[|list| - MAX_REACTIONS..]
  }

  function NonEmpty(text: Option<string>): Option<string> {
    if text == Some("") then None else text
  }

  /** What is stored of an input. */
  function Entry(input: Reaction): Reaction {
    input.(identity := NonEmpty(input.identity), officer := NonEmpty(input.officer))
  }

  /** An empty emoji takes the reaction back. */
  function NextReactions(list: seq<Reaction>, input: Reaction): Outcome {
    var existing := Find(list, input.reactor);
    if input.emoji == "" then
      if existing.Some? then Outcome(Without(list, input.reactor), true) else Outcome(list, false)
    else if existing.Some? && existing.value.emoji == input.emoji then
      if NonEmpty(input.officer).Some? && existing.value.officer != input.officer then
        Outcome(Credit(list, input.reactor, input.officer.value), false)
      else Outcome(list, false)
    else Outcome(LastOnes(Without(list, input.reactor) + [Entry(input)]), true)
  }

  function ReactAll(list: seq<Reaction>, inputs: seq<Reaction>): seq<Reaction> {
    if inputs == [] then list
    else NextReactions(ReactAll(list, inputs[..|inputs| - 1]), inputs[|inputs| - 1]).reactions
  }

  ghost predicate OnePerReactor(list: seq<Reaction>) {
    forall i, j :: 0 <= i < j < |list| ==> list[i].reactor != list[j].reactor
  }

  ghost predicate WellKept(list: seq<Reaction>) {
    OnePerReactor(list) && |list| <= MAX_REACTIONS && forall i :: 0 <= i < |list| ==> list[i].emoji != ""
  }

  // -------------------------------------------------------------------------------- list lemmas

  lemma {:induction false} FindIs(list: seq<Reaction>, reactor: Reactor)
    ensures Find(list, reactor).None? <==> forall i :: 0 <= i < |list| ==> list[i].reactor != reactor
    ensures Find(list, reactor).Some? ==>
      Find(list, reactor).value in list && Find(list, reactor).value.reactor == reactor
  {
    if list != [] {
      FindIs(list[1..], reactor);
      if Find(list, reactor).None? {
        forall i | 0 <= i < |list| ensures list[i].reactor != reactor { assert i > 0 ==> list[i] == list[1..][i - 1]; }
      }
    }
  }

  lemma {:induction false} FindAt(list: seq<Reaction>, i: nat)
    requires OnePerReactor(list) && i < |list|
    ensures Find(list, list[i].reactor) == Some(list[i])
  {
    if i > 0 {
      assert list[0].reactor != list[i].reactor;
      FindAt(list[1..], i - 1);
    }
  }

  lemma {:induction false} WithoutIs(list: seq<Reaction>, reactor: Reactor)
    ensures |Without(list, reactor)| <= |list|
    ensures forall x :: x in Without(list, reactor) <==> x in list && x.reactor != reactor
    ensures Find(list, reactor).Some? ==> |Without(list, reactor)| < |list|
    ensures Find(list, reactor).None? ==> Without(list, reactor) == list
  {
    if list != [] { WithoutIs(list[1..], reactor); }
  }

  lemma PrependReactor(x: Reaction, rest: seq<Reaction>)
    requires OnePerReactor(rest) && forall y :: y in rest ==> y.reactor != x.reactor
    ensures OnePerReactor([x] + rest)
  {
    var all := [x] + rest;
    forall i, j | 0 <= i < j < |all| ensures all[i].reactor != all[j].reactor {
      assert all[j] == rest[j - 1] && all[j] in rest;
      if i > 0 { assert all[i] == rest[i - 1]; }
    }
  }

  lemma {:induction false} WithoutOnePerReactor(list: seq<Reaction>, reactor: Reactor)
    requires OnePerReactor(list)
    ensures OnePerReactor(Without(list, reactor))
  {
    if list != [] {
      WithoutOnePerReactor(list[1..], reactor);
      if list[0].reactor != reactor {
        WithoutIs(list[1..], reactor);
        PrependReactor(list[0], Without(list[1..], reactor));
      }
    }
  }

  lemma SuffixKept(list: seq<Reaction>, k: nat)
    requires OnePerReactor(list) && k <= |list| && forall i :: 0 <= i < |list| ==> list[i].emoji != ""
    ensures OnePerReactor(list[k..]) && forall i :: 0 <= i < |list[k..]| ==> list[k..][i].emoji != ""
  {
  }

  /** The others that stay when one more entry is put at the end. */
  function Room(others: seq<Reaction>): seq<Reaction> {
    if |others| < MAX_REACTIONS then others else others[|others| + 1 - MAX_REACTIONS..]
  }

  lemma LastOnesAreRoomAndNew(others: seq<Reaction>, x: Reaction)
    ensures LastOnes(others + [x]) == Room(others) + [x]
  {
    if |others| >= MAX_REACTIONS {
      var from := |others| + 1 - MAX_REACTIONS;
      assert (others + [x])[from..] == others[from..] + [x];
    }
  }

  lemma OneMoreReactor(front: seq<Reaction>, x: Reaction)
    requires OnePerReactor(front) && forall i :: 0 <= i < |front| ==> front[i].reactor != x.reactor
    ensures OnePerReactor(front + [x])
  {
  }

  lemma AppendKept(others: seq<Reaction>, x: Reaction)
    requires WellKept(others) && x.emoji != "" && Find(others, x.reactor).None?
    ensures WellKept(LastOnes(others + [x]))
  {
    FindIs(others, x.reactor);
    LastOnesAreRoomAndNew(others, x);
    if |others| >= MAX_REACTIONS { SuffixKept(others, |others| + 1 - MAX_REACTIONS); }
    OneMoreReactor(Room(others), x);
  }

  lemma WithoutKept(list: seq<Reaction>, reactor: Reactor)
    requires WellKept(list)
    ensures WellKept(Without(list, reactor)) && Find(Without(list, reactor), reactor).None?
  {
    WithoutIs(list, reactor);
    WithoutOnePerReactor(list, reactor);
    var others := Without(list, reactor);
    forall i | 0 <= i < |others| ensures others[i].reactor != reactor && others[i].emoji != "" {
      assert others[i] in others;
    }
    FindIs(others, reactor);
  }

  lemma KeptStep(list: seq<Reaction>, input: Reaction)
    requires WellKept(list)
    ensures WellKept(NextReactions(list, input).reactions)
  {
    WithoutKept(list, input.reactor);
    if input.emoji != "" { AppendKept(Without(list, input.reactor), Entry(input)); }
  }

  /** One entry per reactor and never more than the limit, after any sequence of reactions. */
  lemma {:induction false} AlwaysWellKept(list: seq<Reaction>, inputs: seq<Reaction>)
    requires WellKept(list)
    ensures WellKept(ReactAll(list, inputs))
    decreases |inputs|
  {
    if inputs != [] {
      AlwaysWellKept(list, inputs[..|inputs| - 1]);
      KeptStep(ReactAll(list, inputs[..|inputs| - 1]), inputs[|inputs| - 1]);
    }
  }

  // -------------------------------------------------------------------- as a map of reactor to emoji

  function AsMap(list: seq<Reaction>): map<Reactor, string> {
    if list == [] then map[] else AsMap(list[1..])[list[0].reactor := list[0].emoji]
  }

  function Put(m: map<Reactor, string>, input: Reaction): map<Reactor, string> {
    if input.emoji == "" then m - {input.reactor} else m[input.reactor := input.emoji]
  }

  function PutAll(m: map<Reactor, string>, inputs: seq<Reaction>): map<Reactor, string> {
    if inputs == [] then m else Put(PutAll(m, inputs[..|inputs| - 1]), inputs[|inputs| - 1])
  }

  lemma {:induction false} MapIs(list: seq<Reaction>, reactor: Reactor)
    ensures reactor in AsMap(list) <==> Find(list, reactor).Some?
    ensures reactor in AsMap(list) ==> AsMap(list)[reactor] == Find(list, reactor).value.emoji
  {
    if list != [] { MapIs(list[1..], reactor); }
  }

  lemma {:induction false} MapSize(list: seq<Reaction>)
    requires OnePerReactor(list)
    ensures |AsMap(list)| == |list|
  {
    if list != [] {
      MapSize(list[1..]);
      MapIs(list[1..], list[0].reactor);
      FindIs(list[1..], list[0].reactor);
      assert AsMap(list).Keys == AsMap(list[1..]).Keys + {list[0].reactor};
    }
  }

  lemma {:induction false} MapWithout(list: seq<Reaction>, reactor: Reactor)
    requires OnePerReactor(list)
    ensures AsMap(Without(list, reactor)) == AsMap(list) - {reactor}
  {
    if list != [] {
      MapWithout(list[1..], reactor);
      if list[0].reactor == reactor {
        FindIs(list[1..], reactor);
        MapIs(list[1..], reactor);
      }
    }
  }

  lemma {:induction false} MapAppend(list: seq<Reaction>, x: Reaction)
    requires Find(list, x.reactor).None?
    ensures AsMap(list + [x]) == AsMap(list)[x.reactor := x.emoji]
  {
    if list == [] {
      assert list + [x] == [x];
    } else {
      assert (list + [x])[1..] == list[1..] + [x];
      MapAppend(list[1..], x);
    }
  }

  lemma {:induction false} CreditIs(list: seq<Reaction>, reactor: Reactor, officer: string)
    ensures AsMap(Credit(list, reactor, officer)) == AsMap(list)
    ensures Find(list, reactor).Some? ==>
      Find(Credit(list, reactor, officer), reactor) == Some(Find(list, reactor).value.(officer := Some(officer)))
  {
    if list != [] {
      CreditIs(list[1..], reactor, officer);
      assert Credit(list, reactor, officer)[1..] == Credit(list[1..], reactor, officer);
    }
  }

  lemma SetIsPut(list: seq<Reaction>, input: Reaction)
    requires WellKept(list) && |Put(AsMap(list), input)| <= MAX_REACTIONS && input.emoji != ""
    ensures AsMap(LastOnes(Without(list, input.reactor) + [Entry(input)])) == Put(AsMap(list), input)
  {
    var r := input.reactor;
    var others := Without(list, r);
    WithoutKept(list, r);
    MapWithout(list, r);
    MapAppend(others, Entry(input));
    MapSize(others);
    MapIs(others, r);
    assert Put(AsMap(list), input) == AsMap(others)[r := input.emoji];
    assert Put(AsMap(list), input).Keys == AsMap(others).Keys + {r};
    assert |others| + 1 <= MAX_REACTIONS;
  }

  lemma StepIsPut(list: seq<Reaction>, input: Reaction)
    requires WellKept(list) && |Put(AsMap(list), input)| <= MAX_REACTIONS
    ensures AsMap(NextReactions(list, input).reactions) == Put(AsMap(list), input)
  {
    var r := input.reactor;
    MapIs(list, r);
    if input.emoji == "" {
      MapWithout(list, r);
    } else if Find(list, r).Some? && Find(list, r).value.emoji == input.emoji {
      if NonEmpty(input.officer).Some? { CreditIs(list, r, input.officer.value); }
      assert Put(AsMap(list), input) == AsMap(list);
    } else {
      SetIsPut(list, input);
    }
  }

  /** At no point of the sequence are more reactors present than are kept. */
  ghost predicate Fits(m: map<Reactor, string>, inputs: seq<Reaction>) {
    forall k :: 0 <= k <= |inputs| ==> |PutAll(m, inputs[..k])| <= MAX_REACTIONS
  }

  /** While they fit, the list is the map in which each reactor's last word stands. */
  lemma {:induction false} LastWordStands(list: seq<Reaction>, inputs: seq<Reaction>)
    requires WellKept(list) && Fits(AsMap(list), inputs)
    ensures AsMap(ReactAll(list, inputs)) == PutAll(AsMap(list), inputs)
    decreases |inputs|
  {
    if inputs != [] {
      var before := inputs[..|inputs| - 1];
      forall k | 0 <= k <= |before| ensures |PutAll(AsMap(list), before[..k])| <= MAX_REACTIONS {
        assert before[..k] == inputs[..k];
      }
      LastWordStands(list, before);
      AlwaysWellKept(list, before);
      assert inputs[..|inputs|] == inputs;
      StepIsPut(ReactAll(list, before), inputs[|inputs| - 1]);
    }
  }

  /** The word of a reactor in the map: its last input, or what it was before. */
  lemma {:induction false} LastWordIs(m: map<Reactor, string>, inputs: seq<Reaction>, k: nat)
    requires k < |inputs| && forall j :: k < j < |inputs| ==> inputs[j].reactor != inputs[k].reactor
    ensures var r, end := inputs[k].reactor, PutAll(m, inputs);
      if inputs[k].emoji == "" then r !in end else r in end && end[r] == inputs[k].emoji
    decreases |inputs|
  {
    if k < |inputs| - 1 {
      LastWordIs(m, inputs[..|inputs| - 1], k);
    }
  }

  /** When a new reactor does not fit, exactly the entry changed longest ago goes. */
  lemma OverflowEvictsOldest(list: seq<Reaction>, input: Reaction)
    requires WellKept(list) && |list| == MAX_REACTIONS && input.emoji != "" && Find(list, input.reactor).None?
    ensures NextReactions(list, input) == Outcome(list[1..] + [Entry(input)], true)
  {
    WithoutIs(list, input.reactor);
    assert (list + [Entry(input)])[1..] == list[1..] + [Entry(input)];
  }

  /** A change moves the reactor to the end and keeps everyone else, in order. */
  lemma ChangeMovesToEnd(list: seq<Reaction>, input: Reaction)
    requires WellKept(list) && input.emoji != "" && Find(list, input.reactor).Some?
    requires Find(list, input.reactor).value.emoji != input.emoji
    ensures NextReactions(list, input) == Outcome(Without(list, input.reactor) + [Entry(input)], true)
  {
    WithoutIs(list, input.reactor);
  }

  /** Repeating an input changes nothing. */
  lemma RepeatChangesNothing(list: seq<Reaction>, input: Reaction)
    requires WellKept(list)
    ensures var once := NextReactions(list, input).reactions;
      NextReactions(once, input) == Outcome(once, false)
  {
    var r := input.reactor;
    var once := NextReactions(list, input).reactions;
    WithoutKept(list, r);
    KeptStep(list, input);
    if input.emoji == "" {
    } else if Find(list, r).Some? && Find(list, r).value.emoji == input.emoji {
      if NonEmpty(input.officer).Some? { CreditIs(list, r, input.officer.value); }
    } else {
      assert once[|once| - 1] == Entry(input);
      FindAt(once, |once| - 1);
    }
  }

  // ------------------------------------------------------------ the officer's reaction and its echo

  function ByOfficer(emoji: string, at: int, officer: string): Reaction {
    Reaction(THIS_NUMBER, emoji, at, None, Some(officer))
  }

  function Echo(emoji: string, at: int): Reaction {
    Reaction(THIS_NUMBER, emoji, at, None, None)
  }

  ghost predicate SameUpToTime(a: seq<Reaction>, b: seq<Reaction>) {
    |a| == |b| && forall i :: 0 <= i < |a| ==> a[i].(at := 0) == b[i].(at := 0)
  }

  /** Equal, but for the time and the credit of this number's own entry. */
  ghost predicate Like(x: Reaction, y: Reaction) {
    && x.reactor == y.reactor && x.emoji == y.emoji && x.identity == y.identity
    && (x.reactor != THIS_NUMBER ==> x == y)
  }

  ghost predicate Alike(a: seq<Reaction>, b: seq<Reaction>) {
    |a| == |b| && forall i :: 0 <= i < |a| ==> Like(a[i], b[i])
  }

  lemma {:induction false} FindAlike(a: seq<Reaction>, b: seq<Reaction>, reactor: Reactor)
    requires Alike(a, b)
    ensures Find(a, reactor).Some? <==> Find(b, reactor).Some?
    ensures Find(a, reactor).Some? ==>
      Like(Find(a, reactor).value, Find(b, reactor).value) && Find(a, reactor).value.reactor == reactor
  {
    if a != [] {
      assert Like(a[0], b[0]);
      FindAlike(a[1..], b[1..], reactor);
    }
  }

  lemma AlikeJoined(a: seq<Reaction>, b: seq<Reaction>, c: seq<Reaction>, d: seq<Reaction>)
    requires Alike(a, b) && Alike(c, d)
    ensures Alike(a + c, b + d)
  {
  }

  lemma {:induction false} WithoutAlike(a: seq<Reaction>, b: seq<Reaction>, reactor: Reactor)
    requires Alike(a, b)
    ensures Alike(Without(a, reactor), Without(b, reactor))
  {
    if a != [] {
      assert Like(a[0], b[0]);
      WithoutAlike(a[1..], b[1..], reactor);
      AlikeJoined([a[0]], [b[0]], Without(a[1..], reactor), Without(b[1..], reactor));
    }
  }

  lemma CreditAlike(a: seq<Reaction>, b: seq<Reaction>, officer: string)
    requires Alike(a, b)
    ensures Alike(Credit(a, THIS_NUMBER, officer), b) && Alike(a, Credit(b, THIS_NUMBER, officer))
  {
  }

  lemma CreditOtherAlike(a: seq<Reaction>, b: seq<Reaction>, reactor: Reactor, officer: string)
    requires Alike(a, b)
    ensures Alike(Credit(a, reactor, officer), Credit(b, reactor, officer))
  {
  }

  lemma RoomAlike(a: seq<Reaction>, b: seq<Reaction>)
    requires Alike(a, b)
    ensures Alike(Room(a), Room(b))
  {
  }

  lemma PutAlike(a: seq<Reaction>, b: seq<Reaction>, r: Reaction, q: Reaction)
    requires Alike(a, b) && Like(r, q)
    ensures Alike(LastOnes(Without(a, r.reactor) + [Entry(r)]), LastOnes(Without(b, r.reactor) + [Entry(q)]))
  {
    var restA, restB := Without(a, r.reactor), Without(b, r.reactor);
    WithoutAlike(a, b, r.reactor);
    RoomAlike(restA, restB);
    AlikeJoined(Room(restA), Room(restB), [Entry(r)], [Entry(q)]);
    LastOnesAreRoomAndNew(restA, Entry(r));
    LastOnesAreRoomAndNew(restB, Entry(q));
  }

  lemma AlikeOwnStep(a: seq<Reaction>, b: seq<Reaction>, r: Reaction, q: Reaction)
    requires Alike(a, b) && Like(r, q) && r.reactor == THIS_NUMBER
    ensures Alike(NextReactions(a, r).reactions, NextReactions(b, q).reactions)
  {
    FindAlike(a, b, THIS_NUMBER);
    if r.emoji == "" {
      WithoutAlike(a, b, THIS_NUMBER);
    } else if Find(a, THIS_NUMBER).Some? && Find(a, THIS_NUMBER).value.emoji == r.emoji {
      var nextA := NextReactions(a, r).reactions;
      if r.officer.Some? { CreditAlike(a, b, r.officer.value); }
      if q.officer.Some? { CreditAlike(nextA, b, q.officer.value); }
    } else {
      PutAlike(a, b, r, q);
    }
  }

  lemma AlikeOtherStep(a: seq<Reaction>, b: seq<Reaction>, r: Reaction)
    requires Alike(a, b) && r.reactor != THIS_NUMBER
    ensures Alike(NextReactions(a, r).reactions, NextReactions(b, r).reactions)
  {
    FindAlike(a, b, r.reactor);
    if r.emoji == "" {
      WithoutAlike(a, b, r.reactor);
    } else if Find(a, r.reactor).Some? && Find(a, r.reactor).value.emoji == r.emoji {
      if r.officer.Some? { CreditOtherAlike(a, b, r.reactor, r.officer.value); }
    } else {
      PutAlike(a, b, r, r);
    }
  }

  lemma AlikeStep(a: seq<Reaction>, b: seq<Reaction>, r: Reaction, q: Reaction)
    requires Alike(a, b) && Like(r, q)
    ensures Alike(NextReactions(a, r).reactions, NextReactions(b, q).reactions)
  {
    if r.reactor == THIS_NUMBER { AlikeOwnStep(a, b, r, q); } else { AlikeOtherStep(a, b, r); }
  }

  lemma {:induction false} AlikeRun(a: seq<Reaction>, b: seq<Reaction>, inputs: seq<Reaction>)
    requires Alike(a, b)
    ensures Alike(ReactAll(a, inputs), ReactAll(b, inputs))
    decreases |inputs|
  {
    if inputs != [] {
      var n := |inputs| - 1;
      AlikeRun(a, b, inputs[..n]);
      AlikeStep(ReactAll(a, inputs[..n]), ReactAll(b, inputs[..n]), inputs[n], inputs[n]);
    }
  }

  function OfficerFirst(
      list: seq<Reaction>, emoji: string, officer: string, t: int, e: int, between: seq<Reaction>): seq<Reaction>
  {
    NextReactions(ReactAll(NextReactions(list, ByOfficer(emoji, t, officer)).reactions, between),
      Echo(emoji, e)).reactions
  }

  function EchoFirst(
      list: seq<Reaction>, emoji: string, officer: string, e: int, now: int, between: seq<Reaction>): seq<Reaction>
  {
    NextReactions(ReactAll(NextReactions(list, Echo(emoji, e)).reactions, between),
      ByOfficer(emoji, now, officer)).reactions
  }

  /**
   * Officer first or echo first, with any reactions of anyone in between: the same reactors in the same
   * order with the same emoji, and everything of other reactors the same.
   */
  lemma ReactionOrdersConverge(
      list: seq<Reaction>, emoji: string, officer: string, t: int, e: int, now: int, between: seq<Reaction>)
    ensures Alike(OfficerFirst(list, emoji, officer, t, e, between), EchoFirst(list, emoji, officer, e, now, between))
  {
    var a, b := ByOfficer(emoji, t, officer), Echo(emoji, e);
    AlikeStep(list, list, a, b);
    AlikeRun(NextReactions(list, a).reactions, NextReactions(list, b).reactions, between);
    AlikeStep(
      ReactAll(NextReactions(list, a).reactions, between), ReactAll(NextReactions(list, b).reactions, between),
      b, ByOfficer(emoji, now, officer));
  }

  // -------------------------------------------------------------------------------- who is credited

  ghost predicate OnlyOthers(inputs: seq<Reaction>) {
    forall i :: 0 <= i < |inputs| ==> inputs[i].reactor != THIS_NUMBER
  }

  lemma MemberIsFound(list: seq<Reaction>, x: Reaction)
    requires OnePerReactor(list) && x in list
    ensures Find(list, x.reactor) == Some(x)
  {
    var i :| 0 <= i < |list| && list[i] == x;
    FindAt(list, i);
  }

  /** A reaction of someone else leaves this number's entry as it is, or evicts it. */
  lemma OwnStep(list: seq<Reaction>, r: Reaction)
    requires WellKept(list) && r.reactor != THIS_NUMBER
    ensures var next := NextReactions(list, r).reactions;
      Find(next, THIS_NUMBER).None? || Find(next, THIS_NUMBER) == Find(list, THIS_NUMBER)
  {
    var next := NextReactions(list, r).reactions;
    FindIs(next, THIS_NUMBER);
    if Find(next, THIS_NUMBER).Some? {
      var x := Find(next, THIS_NUMBER).value;
      WithoutIs(list, r.reactor);
      LastOnesAreRoomAndNew(Without(list, r.reactor), Entry(r));
      assert x in list;
      MemberIsFound(list, x);
    }
  }

  lemma {:induction false} OwnRun(list: seq<Reaction>, inputs: seq<Reaction>)
    requires WellKept(list) && OnlyOthers(inputs)
    ensures var end := ReactAll(list, inputs);
      Find(end, THIS_NUMBER).None? || Find(end, THIS_NUMBER) == Find(list, THIS_NUMBER)
    decreases |inputs|
  {
    if inputs != [] {
      var n := |inputs| - 1;
      OwnRun(list, inputs[..n]);
      AlwaysWellKept(list, inputs[..n]);
      OwnStep(ReactAll(list, inputs[..n]), inputs[n]);
    }
  }

  /** What this number's own entry is after an input, evictions aside. */
  function OwnWord(own: Option<Reaction>, r: Reaction): Option<Reaction> {
    if r.reactor != THIS_NUMBER then own
    else if r.emoji == "" then None
    else if own.Some? && own.value.emoji == r.emoji then
      if NonEmpty(r.officer).Some? then Some(own.value.(officer := r.officer)) else own
    else Some(Entry(r))
  }

  function OwnWords(own: Option<Reaction>, inputs: seq<Reaction>): Option<Reaction> {
    if inputs == [] then own else OwnWord(OwnWords(own, inputs[..|inputs| - 1]), inputs[|inputs| - 1])
  }

  lemma EntryEndsList(list: seq<Reaction>, r: Reaction)
    requires WellKept(list) && r.emoji != ""
    requires Find(list, r.reactor).None? || Find(list, r.reactor).value.emoji != r.emoji
    ensures Find(NextReactions(list, r).reactions, r.reactor) == Some(Entry(r))
  {
    KeptStep(list, r);
    LastOnesAreRoomAndNew(Without(list, r.reactor), Entry(r));
    var after := NextReactions(list, r).reactions;
    assert after[|after| - 1] == Entry(r);
    FindAt(after, |after| - 1);
  }

  lemma OwnInput(list: seq<Reaction>, r: Reaction)
    requires WellKept(list) && r.reactor == THIS_NUMBER
    ensures Find(NextReactions(list, r).reactions, THIS_NUMBER) == OwnWord(Find(list, THIS_NUMBER), r)
  {
    var existing := Find(list, THIS_NUMBER);
    if r.emoji == "" {
      WithoutKept(list, THIS_NUMBER);
    } else if existing.Some? && existing.value.emoji == r.emoji {
      if NonEmpty(r.officer).Some? { CreditIs(list, THIS_NUMBER, r.officer.value); }
    } else {
      EntryEndsList(list, r);
    }
  }

  /** While no more than 1024 reactors are present nothing is evicted, and the own entry is its own words. */
  lemma {:induction false} OwnWordsStand(list: seq<Reaction>, inputs: seq<Reaction>)
    requires WellKept(list) && Fits(AsMap(list), inputs)
    ensures Find(ReactAll(list, inputs), THIS_NUMBER) == OwnWords(Find(list, THIS_NUMBER), inputs)
    decreases |inputs|
  {
    if inputs != [] {
      var n := |inputs| - 1;
      var mid, r := ReactAll(list, inputs[..n]), inputs[n];
      FitsBefore(AsMap(list), inputs);
      OwnWordsStand(list, inputs[..n]);
      AlwaysWellKept(list, inputs[..n]);
      if r.reactor == THIS_NUMBER {
        OwnInput(mid, r);
      } else {
        OwnStep(mid, r);
        LastWordStands(list, inputs[..n]);
        LastWordStands(list, inputs);
        MapIs(mid, THIS_NUMBER);
        MapIs(ReactAll(list, inputs), THIS_NUMBER);
      }
    }
  }

  lemma FitsBefore(m: map<Reactor, string>, inputs: seq<Reaction>)
    requires Fits(m, inputs) && inputs != []
    ensures Fits(m, inputs[..|inputs| - 1])
  {
    var before := inputs[..|inputs| - 1];
    forall k | 0 <= k <= |before| ensures |PutAll(m, before[..k])| <= MAX_REACTIONS {
      assert before[..k] == inputs[..k];
    }
  }

  /** Alike lists are the same up to time exactly when this number's entries carry the same credit. */
  lemma AlikeSameIff(a: seq<Reaction>, b: seq<Reaction>)
    requires Alike(a, b) && OnePerReactor(a) && OnePerReactor(b)
    ensures Find(a, THIS_NUMBER).Some? <==> Find(b, THIS_NUMBER).Some?
    ensures SameUpToTime(a, b) <==>
      Find(a, THIS_NUMBER).None? || Find(a, THIS_NUMBER).value.officer == Find(b, THIS_NUMBER).value.officer
  {
    FindAlike(a, b, THIS_NUMBER);
    if Find(a, THIS_NUMBER).Some? {
      FindIs(a, THIS_NUMBER);
      var i :| 0 <= i < |a| && a[i] == Find(a, THIS_NUMBER).value;
      assert Like(a[i], b[i]);
      FindAt(b, i);
      forall j | 0 <= j < |a| && j != i ensures a[j] == b[j] {
        assert Like(a[j], b[j]) && a[j].reactor != a[i].reactor by { OthersDiffer(a, i, j); }
      }
    } else {
      FindIs(a, THIS_NUMBER);
      forall j | 0 <= j < |a| ensures a[j] == b[j] { assert Like(a[j], b[j]); }
    }
  }

  lemma OthersDiffer(list: seq<Reaction>, i: nat, j: nat)
    requires OnePerReactor(list) && i < |list| && j < |list| && i != j
    ensures list[i].reactor != list[j].reactor
  {
    if i < j { assert list[i].reactor != list[j].reactor; } else { assert list[j].reactor != list[i].reactor; }
  }

  /**
   * With anyone's reactions in between, this number's own included: the two orders are the same up to time
   * exactly when the reaction was to be taken back, or this number's entry still has that emoji and that
   * officer when the echo comes second.  The echo stored first always ends up credited to the officer.
   */
  lemma ReactionCreditIff(
      list: seq<Reaction>, emoji: string, officer: string, t: int, e: int, now: int, between: seq<Reaction>)
    requires WellKept(list) && officer != ""
    ensures var mid := ReactAll(NextReactions(list, ByOfficer(emoji, t, officer)).reactions, between);
      var officerFirst := OfficerFirst(list, emoji, officer, t, e, between);
      var echoFirst := EchoFirst(list, emoji, officer, e, now, between);
      var waiting, own := Find(mid, THIS_NUMBER), Find(echoFirst, THIS_NUMBER);
      && (SameUpToTime(officerFirst, echoFirst) <==>
            emoji == "" || (waiting.Some? && waiting.value.emoji == emoji && waiting.value.officer == Some(officer)))
      && (emoji == "" ==> own.None?)
      && (emoji != "" ==> own.Some? && own.value.emoji == emoji && own.value.officer == Some(officer))
  {
    var a, b := ByOfficer(emoji, t, officer), Echo(emoji, e);
    var startA, startB := NextReactions(list, a).reactions, NextReactions(list, b).reactions;
    var midA, midB := ReactAll(startA, between), ReactAll(startB, between);
    KeptStep(list, a);
    KeptStep(list, b);
    AlwaysWellKept(startA, between);
    AlwaysWellKept(startB, between);
    AlikeStep(list, list, a, b);
    AlikeRun(startA, startB, between);
    FindAlike(midA, midB, THIS_NUMBER);
    OwnInput(midA, b);
    OwnInput(midB, ByOfficer(emoji, now, officer));
    KeptStep(midA, b);
    KeptStep(midB, ByOfficer(emoji, now, officer));
    ReactionOrdersConverge(list, emoji, officer, t, e, now, between);
    AlikeSameIff(OfficerFirst(list, emoji, officer, t, e, between), EchoFirst(list, emoji, officer, e, now, between));
  }

  /** While everyone fits, that can be told from this number's own inputs alone. */
  lemma ReactionCreditWhileItFits(
      list: seq<Reaction>, emoji: string, officer: string, t: int, e: int, now: int, between: seq<Reaction>)
    requires WellKept(list) && officer != ""
    requires Fits(AsMap(NextReactions(list, ByOfficer(emoji, t, officer)).reactions), between)
    ensures var waiting := OwnWords(OwnWord(Find(list, THIS_NUMBER), ByOfficer(emoji, t, officer)), between);
      SameUpToTime(OfficerFirst(list, emoji, officer, t, e, between), EchoFirst(list, emoji, officer, e, now, between))
      <==> emoji == "" || (waiting.Some? && waiting.value.emoji == emoji && waiting.value.officer == Some(officer))
  {
    var a := ByOfficer(emoji, t, officer);
    KeptStep(list, a);
    OwnInput(list, a);
    OwnWordsStand(NextReactions(list, a).reactions, between);
    ReactionCreditIff(list, emoji, officer, t, e, now, between);
  }

  lemma {:induction false} PutAllKeeps(m: map<Reactor, string>, inputs: seq<Reaction>)
    requires OnlyOthers(inputs)
    ensures THIS_NUMBER in PutAll(m, inputs) <==> THIS_NUMBER in m
    decreases |inputs|
  {
    if inputs != [] { PutAllKeeps(m, inputs[..|inputs| - 1]); }
  }

  /** While no more than 1024 reactors are present, nobody's reactions evict this number's entry. */
  lemma OwnStaysWhileItFits(list: seq<Reaction>, between: seq<Reaction>)
    requires WellKept(list) && OnlyOthers(between) && Fits(AsMap(list), between) && Find(list, THIS_NUMBER).Some?
    ensures Find(ReactAll(list, between), THIS_NUMBER) == Find(list, THIS_NUMBER)
  {
    LastWordStands(list, between);
    PutAllKeeps(AsMap(list), between);
    MapIs(list, THIS_NUMBER);
    MapIs(ReactAll(list, between), THIS_NUMBER);
    OwnRun(list, between);
  }
}
