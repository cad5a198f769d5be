/**
 * The send rate of one number over a whole run of the worker.  The worker checks how many messages the
 * number sent in the last minute, hands one over, and then leaves the number alone for a random gap.
 */
module SendRate {
  const MINUTE := 60_000

  /** At most `rate` in the minute before. */
  predicate RateAllows(sentInLastMinute: nat, rate: nat) {
    sentInLastMinute < rate
  }

  /** The gap after a send, from a random number the worker is handed. */
  function SendGap(random: real): int {
    var low := if random < 0.0 then 0.0 else random;
    var value := if low > 0.999999 then 0.999999 else low;
    2_000 + (value * 4_001.0).Floor
  }

  lemma GapIsTwoToSixSeconds(random: real)
    ensures 2_000 <= SendGap(random) <= 6_000
    ensures random <= 0.0 ==> SendGap(random) == 2_000
    ensures random >= 0.999999 ==> SendGap(random) == 6_000
  {
    var low := if random < 0.0 then 0.0 else random;
    var value := if low > 0.999999 then 0.999999 else low;
    assert 0.0 <= value * 4_001.0 <= 0.999999 * 4_001.0;
  }

  /** In between, the gap grows by a millisecond with every 4001st part of the random number. */
  lemma GapIsEvenlySpread(random: real, m: int)
    requires 0.0 <= random <= 0.999999
    ensures SendGap(random) == 2_000 + m <==> m as real <= 4_001.0 * random < (m + 1) as real
  {
    assert random * 4_001.0 == 4_001.0 * random;
  }

  /**
   * One message handed over: when the rate was checked, when the engine took it, the rate in force at
   * the check, the random number behind the gap, and whether the worker was restarted since the
   * previous send (the gap lives in memory; the count is in the database).
   */
  datatype Sent = Sent(checkedAt: int, sentAt: int, rate: nat, random: real, restarted: bool)

  function CountSince(log: seq<Sent>, after: int): nat {
    if log == [] then 0
    else CountSince(log[..|log| - 1], after) + if log[|log| - 1].sentAt > after then 1 else 0
  }

  /** What the worker guarantees when it sends `next` after `log`. */
  predicate MaySend(log: seq<Sent>, next: Sent) {
    && next.checkedAt <= next.sentAt
    && RateAllows(CountSince(log, next.checkedAt - MINUTE), next.rate)
    && (log != [] ==>
          var last := log[|log| - 1];
          && last.sentAt <= next.checkedAt
          && (next.restarted || last.sentAt + SendGap(last.random) <= next.checkedAt))
  }

  function SentAfter(log: seq<Sent>, after: int): set<nat> {
    set i: nat | i < |log| && log[i].sentAt > after
  }

  lemma {:induction false} CountSinceIs(log: seq<Sent>, after: int)
    ensures CountSince(log, after) == |SentAfter(log, after)|
    decreases |log|
  {
    if log != [] {
      var n := |log| - 1;
      CountSinceIs(log[..n], after);
      if log[n].sentAt > after {
        assert SentAfter(log, after) == SentAfter(log[..n], after) + {n};
      } else {
        assert SentAfter(log, after) == SentAfter(log[..n], after);
      }
    }
  }

  /**
   * The worker sends exactly while fewer messages than the rate left in the sixty seconds before the check,
   * and not before the gap after its last send is over, unless it was restarted since.
   */
  lemma MaySendIff(log: seq<Sent>, next: Sent)
    ensures MaySend(log, next) <==>
      && next.checkedAt <= next.sentAt
      && |SentAfter(log, next.checkedAt - 60_000)| < next.rate
      && (log == [] || log[|log| - 1].sentAt <=
            next.checkedAt - if next.restarted then 0 else SendGap(log[|log| - 1].random))
  {
    CountSinceIs(log, next.checkedAt - 60_000);
    if log != [] { GapIsTwoToSixSeconds(log[|log| - 1].random); }
  }

  predicate WorkerRun(log: seq<Sent>) {
    log == [] || (WorkerRun(log[..|log| - 1]) && MaySend(log[..|log| - 1], log[|log| - 1]))
  }

  /** Sends in the half-open minute after `from`. */
  function CountIn(log: seq<Sent>, from: int): nat {
    if log == [] then 0
    else CountIn(log[..|log| - 1], from) + if from < log[|log| - 1].sentAt <= from + MINUTE then 1 else 0
  }

  function RestartsIn(log: seq<Sent>, from: int): nat {
    if log == [] then 0
    else RestartsIn(log[..|log| - 1], from) + if RestartIn(log[|log| - 1], from) then 1 else 0
  }

  predicate RestartIn(sent: Sent, from: int) {
    from < sent.sentAt <= from + MINUTE && sent.restarted
  }

  lemma {:induction false} SentInOrder(log: seq<Sent>)
    requires WorkerRun(log)
    ensures forall i, j :: 0 <= i <= j < |log| ==> log[i].sentAt <= log[j].sentAt
    decreases |log|
  {
    if log != [] {
      SentInOrder(log[..|log| - 1]);
      forall i, j | 0 <= i <= j < |log| ensures log[i].sentAt <= log[j].sentAt {
        if i < |log| - 1 {
          assert log[..|log| - 1][i].sentAt <= log[..|log| - 1][|log| - 2].sentAt;
          assert j < |log| - 1 ==> log[..|log| - 1][i].sentAt <= log[..|log| - 1][j].sentAt;
        }
      }
    }
  }

  lemma {:induction false} CountMonotone(log: seq<Sent>, from: int, after: int)
    requires after <= from
    ensures CountIn(log, from) <= CountSince(log, after)
    decreases |log|
  {
    if log != [] { CountMonotone(log[..|log| - 1], from, after); }
  }

  lemma {:induction false} NothingAfter(log: seq<Sent>, from: int)
    requires forall i :: 0 <= i < |log| ==> log[i].sentAt <= from
    ensures CountIn(log, from) == 0
    decreases |log|
  {
    if log != [] { NothingAfter(log[..|log| - 1], from); }
  }

  /** The rate in force at the last send of the minute; 0 if there was none. */
  function LastRateIn(log: seq<Sent>, from: int): nat {
    if log == [] then 0
    else if from < log[|log| - 1].sentAt <= from + MINUTE then log[|log| - 1].rate
    else LastRateIn(log[..|log| - 1], from)
  }

  /**
   * In every run and every half-open minute, no more messages leave a number than the rate in force
   * when the last of them was checked, even if the admin changed the rate on the way.
   */
  lemma {:induction false} RateHoldsInEveryMinute(log: seq<Sent>, from: int)
    requires WorkerRun(log)
    ensures CountIn(log, from) <= LastRateIn(log, from)
    decreases |log|
  {
    if log != [] {
      var before, next := log[..|log| - 1], log[|log| - 1];
      RateHoldsInEveryMinute(before, from);
      if from < next.sentAt <= from + MINUTE {
        CountMonotone(before, from, next.checkedAt - MINUTE);
      }
    }
  }

  /** With one rate throughout, no half-open minute holds more than that rate. */
  lemma {:induction false} LastRateIsRate(log: seq<Sent>, from: int, rate: nat)
    requires forall i :: 0 <= i < |log| ==> log[i].rate <= rate
    ensures LastRateIn(log, from) <= rate
    decreases |log|
  {
    if log != [] { LastRateIsRate(log[..|log| - 1], from, rate); }
  }

  lemma ConstantRateHolds(log: seq<Sent>, from: int, rate: nat)
    requires WorkerRun(log) && forall i :: 0 <= i < |log| ==> log[i].rate <= rate
    ensures CountIn(log, from) <= rate
  {
    RateHoldsInEveryMinute(log, from);
    LastRateIsRate(log, from, rate);
  }

  /** How far into the minute the last send is, measured in gaps of two seconds. */
  lemma {:induction false} GapsAddUp(log: seq<Sent>, from: int)
    requires WorkerRun(log) && log != [] && from < log[|log| - 1].sentAt <= from + MINUTE
    ensures log[|log| - 1].sentAt > from + 2_000 * (CountIn(log, from) - 1 - RestartsIn(log, from))
    decreases |log|
  {
    var before, next := log[..|log| - 1], log[|log| - 1];
    if before != [] {
      var last := before[|before| - 1];
      SentInOrder(log);
      if from < last.sentAt {
        assert log[|log| - 2] == last;
        GapsAddUp(before, from);
        GapIsTwoToSixSeconds(last.random);
      } else {
        forall i | 0 <= i < |before| ensures before[i].sentAt <= from { assert log[i].sentAt <= log[|log| - 2].sentAt; }
        NothingAfter(before, from);
      }
    }
  }

  /** Never more than thirty messages in a half-open minute, plus one for each restart of the worker in it. */
  lemma {:induction false} AtMostThirtyAMinute(log: seq<Sent>, from: int)
    requires WorkerRun(log)
    ensures CountIn(log, from) <= 30 + RestartsIn(log, from)
    decreases |log|
  {
    if log != [] {
      if from < log[|log| - 1].sentAt <= from + MINUTE {
        GapsAddUp(log, from);
      } else {
        AtMostThirtyAMinute(log[..|log| - 1], from);
      }
    }
  }

  // ------------------------------------------------------------------------- the bound is attained

  /** `base` sends two seconds apart from the start of the minute, then `extra` at once, each after a restart. */
  function Busy(base: nat, extra: nat, rate: nat): seq<Sent> {
    if extra > 0 then Busy(base, extra - 1, rate) + [Sent(BusyEnd(base), BusyEnd(base), rate, 0.0, true)]
    else if base > 0 then Busy(base - 1, 0, rate) + [Sent(2_000 * base, 2_000 * base, rate, 0.0, false)]
    else []
  }

  function BusyEnd(base: nat): int {
    if base == 0 then MINUTE else 2_000 * base
  }

  lemma {:induction false} CountSinceWithin(log: seq<Sent>, after: int)
    ensures CountSince(log, after) <= |log|
  {
    if log != [] { CountSinceWithin(log[..|log| - 1], after); }
  }

  /** One more send in the minute, while there are fewer than the rate in all. */
  lemma OneMoreSend(before: seq<Sent>, at: int, rate: nat, restarted: bool)
    requires WorkerRun(before) && |before| < rate && 0 < at <= MINUTE
    requires before != [] ==>
      var last := before[|before| - 1];
      last.random == 0.0 && if restarted then last.sentAt <= at else last.sentAt + 2_000 <= at
    ensures var log := before + [Sent(at, at, rate, 0.0, restarted)];
      && WorkerRun(log) && CountIn(log, 0) == CountIn(before, 0) + 1
      && RestartsIn(log, 0) == RestartsIn(before, 0) + if restarted then 1 else 0
  {
    var next := Sent(at, at, rate, 0.0, restarted);
    var log := before + [next];
    assert log[..|log| - 1] == before;
    CountSinceWithin(before, at - MINUTE);
    GapIsTwoToSixSeconds(0.0);
    assert MaySend(before, next);
  }

  ghost predicate BusyLog(log: seq<Sent>, base: nat, extra: nat, rate: nat) {
    && WorkerRun(log) && |log| == base + extra
    && CountIn(log, 0) == base + extra && RestartsIn(log, 0) == extra
    && (forall i :: 0 <= i < |log| ==> log[i].rate == rate && log[i].random == 0.0)
    && (log != [] ==> log[|log| - 1].sentAt == BusyEnd(base))
  }

  lemma BusyLogNext(before: seq<Sent>, base: nat, extra: nat, rate: nat)
    requires BusyLog(before, base, extra, rate) && base <= 30 && base + extra < rate
    ensures BusyLog(before + [Sent(BusyEnd(base), BusyEnd(base), rate, 0.0, true)], base, extra + 1, rate)
    ensures extra == 0 && base < 30 ==>
      BusyLog(before + [Sent(2_000 * (base + 1), 2_000 * (base + 1), rate, 0.0, false)], base + 1, 0, rate)
  {
    OneMoreSend(before, BusyEnd(base), rate, true);
    if extra == 0 && base < 30 { OneMoreSend(before, 2_000 * (base + 1), rate, false); }
  }

  lemma {:induction false} BusyRuns(base: nat, extra: nat, rate: nat)
    requires base <= 30 && base + extra <= rate
    ensures BusyLog(Busy(base, extra, rate), base, extra, rate)
    decreases extra, base
  {
    if extra > 0 {
      BusyRuns(base, extra - 1, rate);
      BusyLogNext(Busy(base, extra - 1, rate), base, extra - 1, rate);
    } else if base > 0 {
      BusyRuns(base - 1, 0, rate);
      BusyLogNext(Busy(base - 1, 0, rate), base - 1, 0, rate);
    } else {
      assert Busy(0, 0, rate) == [];
    }
  }

  lemma {:induction false} RestartsAreSends(log: seq<Sent>, from: int)
    ensures RestartsIn(log, from) <= CountIn(log, from)
    decreases |log|
  {
    if log != [] { RestartsAreSends(log[..|log| - 1], from); }
  }

  /** A run at one rate that puts `count` sends into the minute after 0, `restarts` of them after a restart. */
  ghost predicate Possible(rate: nat, restarts: nat, count: nat) {
    exists log :: BusyMinute(log, rate, restarts, count)
  }

  ghost predicate BusyMinute(log: seq<Sent>, rate: nat, restarts: nat, count: nat) {
    && WorkerRun(log) && (forall i :: 0 <= i < |log| ==> log[i].rate == rate)
    && RestartsIn(log, 0) == restarts && CountIn(log, 0) == count
  }

  /**
   * Exactly what a minute can hold: with `restarts` of its sends right after a restart, any number from
   * there up to the smaller of the rate and thirty more, and nothing else.  So without a restart more than
   * thirty are impossible, and with one, thirty-one happen at any rate that allows them.
   */
  lemma MinuteHoldsExactly(rate: nat, restarts: nat, count: nat)
    ensures Possible(rate, restarts, count) <==> restarts <= count <= rate && count <= 30 + restarts
  {
    if log :| BusyMinute(log, rate, restarts, count) {
      RestartsAreSends(log, 0);
      ConstantRateHolds(log, 0, rate);
      AtMostThirtyAMinute(log, 0);
    }
    if restarts <= count <= rate && count <= 30 + restarts {
      BusyRuns(count - restarts, restarts, rate);
      assert BusyMinute(Busy(count - restarts, restarts, rate), rate, restarts, count);
    }
  }
}
