/**
 * When a message may be sent: the daily window on the WIB clock, expiry, and the forward-only
 * delivery status.  Instants are milliseconds since the epoch.
 */
module SendPolicy {
  import opened Common
  import opened TextOrder

  const WIB_OFFSET: int := 7 * 60 * 60 * 1000
  const DAY: int := 24 * 60 * 60 * 1000

  // ----------------------------------------------------------------------------- times of the day

  predicate Digit(c: char) { '0' <= c <= '9' }

  function Value(c: char): int
    requires Digit(c)
  {
    c as int - '0' as int
  }

  predicate TwoDigits(s: string, i: nat) {
    i + 2 <= |s| && Digit(s[i]) && Digit(s[i + 1])
  }

  function Number(s: string, i: nat): nat
    requires TwoDigits(s, i)
  {
    10 * Value(s[i]) + Value(s[i + 1])
  }

  /** `HH:MM` or `HH:MM:SS`; None is the error. */
  function TimeOfDay(s: string): Option<nat> {
    if |s| == 5 && TwoDigits(s, 0) && s[2] == ':' && TwoDigits(s, 3) then
      Some((Number(s, 0) * 60 + Number(s, 3)) * 60 * 1000)
    else if |s| == 8 && TwoDigits(s, 0) && s[2] == ':' && TwoDigits(s, 3) && s[5] == ':' && TwoDigits(s, 6) then
      Some(((Number(s, 0) * 60 + Number(s, 3)) * 60 + Number(s, 6)) * 1000)
    else None
  }

  /** What the admin form accepts: a real clock time `HH:MM`. */
  predicate ClockTime(s: string) {
    |s| == 5 && TwoDigits(s, 0) && s[2] == ':' && TwoDigits(s, 3) && Number(s, 0) < 24 && Number(s, 3) < 60
  }

  lemma TextLessUnfolds(a: string, b: string)
    requires |a| == |b| == 5
    ensures TextLess(a, b) <==>
      || a[0] < b[0]
      || (a[0] == b[0] && (a[1] < b[1]
      || (a[1] == b[1] && (a[2] < b[2]
      || (a[2] == b[2] && (a[3] < b[3]
      || (a[3] == b[3] && a[4] < b[4])))))))
  {
    assert TextLess(a[4..], b[4..]) <==> a[4] < b[4];
    TextLessStep(a, b, 3);
    TextLessStep(a, b, 2);
    TextLessStep(a, b, 1);
  }

  lemma TextLessStep(a: string, b: string, i: nat)
    requires i < |a| == |b|
    ensures TextLess(a[i..], b[i..]) <==> a[i] < b[i] || (a[i] == b[i] && TextLess(a[i + 1..], b[i + 1..]))
  {
    assert a[i..][1..] == a[i + 1..] && b[i..][1..] == b[i + 1..];
  }

  /** Text order is time order, so the admin check leaves every number a window inside one day. */
  lemma TextOrderIsTimeOrder(a: string, b: string)
    requires ClockTime(a) && ClockTime(b)
    ensures TimeOfDay(a).Some? && TimeOfDay(b).Some?
    ensures TextLess(a, b) <==> TimeOfDay(a).value < TimeOfDay(b).value
    ensures TimeOfDay(a).value < DAY
  {
    TextLessUnfolds(a, b);
  }

  /** The database hands the worker the same time with its seconds. */
  lemma SecondsAddNothing(s: string)
    requires ClockTime(s)
    ensures TimeOfDay(s + ":00") == TimeOfDay(s)
  {
    var t := s + ":00";
    assert t[0] == s[0] && t[1] == s[1] && t[2] == s[2] && t[3] == s[3] && t[4] == s[4];
    assert t[5] == ':' && t[6] == '0' && t[7] == '0';
  }

  // ------------------------------------------------------------------------------ the send window

  function DayStart(t: int): int {
    (t + WIB_OFFSET) / DAY * DAY - WIB_OFFSET
  }

  function OffsetInDay(t: int): int {
    (t + WIB_OFFSET) % DAY
  }

  /** The instants at which a notification may leave. */
  predicate OpenAt(t: int, start: nat, end: nat) {
    start <= OffsetInDay(t) < end
  }

  datatype Window = Open | Closed(nextOpenAt: int)

  function SendWindow(now: int, start: nat, end: nat): Window {
    var local := now + WIB_OFFSET;
    var dayStart := local / DAY * DAY;
    var offset := local - dayStart;
    if start <= offset < end then Open
    else Closed((if offset < start then dayStart + start else dayStart + DAY + start) - WIB_OFFSET)
  }

  /** A start and an end that leave the window a moment in every day. */
  predicate RealWindow(start: nat, end: nat) {
    start < end && start < DAY
  }

  /** The admin form refuses a start that is not before the end, both as text, so no number is left without a window. */
  lemma AdminCheckGivesRealWindow(start: string, end: string)
    requires ClockTime(start) && ClockTime(end) && TextLess(start, end)
    ensures TimeOfDay(start).Some? && TimeOfDay(end).Some? && RealWindow(TimeOfDay(start).value, TimeOfDay(end).value)
  {
    TextOrderIsTimeOrder(start, end);
  }

  lemma OffsetOf(day: int, offset: int)
    requires 0 <= offset < DAY
    ensures OffsetInDay(day * DAY + offset - WIB_OFFSET) == offset
    ensures DayStart(day * DAY + offset - WIB_OFFSET) == day * DAY - WIB_OFFSET
  {
  }

  lemma DayOf(t: int) returns (day: int, offset: int)
    ensures t == day * DAY + offset - WIB_OFFSET && 0 <= offset < DAY
    ensures OffsetInDay(t) == offset && day == (t + WIB_OFFSET) / DAY
  {
    day, offset := (t + WIB_OFFSET) / DAY, (t + WIB_OFFSET) % DAY;
  }

  /** The answer is `Open` exactly at open instants; otherwise the instant named is later, open, and the first such. */
  lemma WindowNamesNextOpening(now: int, start: nat, end: nat)
    requires RealWindow(start, end)
    ensures SendWindow(now, start, end).Open? <==> OpenAt(now, start, end)
    ensures SendWindow(now, start, end).Closed? ==>
      var next := SendWindow(now, start, end).nextOpenAt;
      now < next <= now + DAY && OpenAt(next, start, end) && forall t :: now <= t < next ==> !OpenAt(t, start, end)
  {
    var day, offset := DayOf(now);
    if SendWindow(now, start, end).Closed? {
      var next := SendWindow(now, start, end).nextOpenAt;
      OffsetOf(if offset < start then day else day + 1, start);
      forall t | now <= t < next ensures !OpenAt(t, start, end) {
        var d, o := DayOf(t);
        assert d == day || d == day + 1;
      }
    }
  }

  /**
   * The instant a closed window names is ahead, within a day; it is open iff the window is real: an end
   * not after the start never opens.
   */
  lemma NextOpeningIsOpenIff(now: int, start: nat, end: nat)
    requires SendWindow(now, start, end).Closed? && start < DAY
    ensures OpenAt(SendWindow(now, start, end).nextOpenAt, start, end) <==> start < end
    ensures now < SendWindow(now, start, end).nextOpenAt <= now + DAY
  {
    var day, offset := DayOf(now);
    OffsetOf(if offset < start then day else day + 1, start);
  }

  // ----------------------------------------------------------------------------------- decisions

  datatype MessageKind = Notification | Code | Conversation

  datatype Decision = Send | Wait(until: int) | Expire

  function Decide(now: int, kind: MessageKind, start: nat, end: nat, expiresAt: int, replying: bool): Decision {
    if expiresAt <= now then Expire
    else if kind != Notification || replying then Send
    else
      match SendWindow(now, start, end)
      case Open => Send
      case Closed(next) => if expiresAt <= next then Expire else Wait(next)
  }

  /** The instants at which this message may leave. */
  predicate Permitted(t: int, kind: MessageKind, start: nat, end: nat, replying: bool) {
    kind != Notification || replying || OpenAt(t, start, end)
  }

  /**
   * Send iff now is permitted and not too late; wait until the first permitted instant iff that one is
   * still in time; expire iff no permitted instant is left before the message expires.
   */
  lemma DecisionIsExact(now: int, kind: MessageKind, start: nat, end: nat, expiresAt: int, replying: bool)
    requires RealWindow(start, end)
    ensures var d := Decide(now, kind, start, end, expiresAt, replying);
      && (d.Send? <==> now < expiresAt && Permitted(now, kind, start, end, replying))
      && (d.Wait? ==>
            && now < d.until < expiresAt && Permitted(d.until, kind, start, end, replying)
            && forall t :: now <= t < d.until ==> !Permitted(t, kind, start, end, replying))
      && (d.Expire? <==> forall t :: now <= t < expiresAt ==> !Permitted(t, kind, start, end, replying))
  {
    WindowNamesNextOpening(now, start, end);
    var d := Decide(now, kind, start, end, expiresAt, replying);
    if d.Send? { assert Permitted(now, kind, start, end, replying); }
    if d.Wait? { assert Permitted(d.until, kind, start, end, replying); }
  }

  // ------------------------------------------------------------------------------- status updates

  datatype Status = Queued | HandedOver | Delivered | Seen | Failed | Cancelled

  datatype Receipt = DeliveredReceipt | SeenReceipt

  function Rank(s: Status): Option<int> {
    match s
    case Queued => Some(0)
    case HandedOver => Some(1)
    case Delivered => Some(2)
    case Seen => Some(3)
    case Failed => None
    case Cancelled => None
  }

  function Claimed(r: Receipt): Status {
    match r case DeliveredReceipt => Delivered case SeenReceipt => Seen
  }

  /** None is no change. */
  function AdvanceStatus(current: Status, incoming: Receipt): Option<Status> {
    var from := Rank(current);
    if from.None? || from.value < 1 then None
    else if Rank(Claimed(incoming)).value > from.value then Some(Claimed(incoming))
    else None
  }

  /** Only a step forward is a change, and it leads to what the receipt says. */
  lemma AdvanceStatusIs(current: Status, incoming: Receipt)
    ensures AdvanceStatus(current, incoming) ==
      match (current, incoming)
      case (HandedOver, DeliveredReceipt) => Some(Delivered)
      case (HandedOver, SeenReceipt) => Some(Seen)
      case (Delivered, SeenReceipt) => Some(Seen)
      case _ => None
  {
  }

  function Advanced(current: Status, incoming: Receipt): Status {
    match AdvanceStatus(current, incoming) case Some(s) => s case None => current
  }

  function AdvanceAll(current: Status, receipts: seq<Receipt>): Status
    decreases |receipts|
  {
    if receipts == [] then current else AdvanceAll(Advanced(current, receipts[0]), receipts[1..])
  }

  /** Late, duplicate or out-of-order receipts: only which kinds ever arrived matters. */
  lemma {:induction false} ReceiptsInAnyOrder(current: Status, receipts: seq<Receipt>)
    ensures AdvanceAll(current, receipts) ==
      if current !in {HandedOver, Delivered, Seen} then current
      else if current == Seen || SeenReceipt in receipts then Seen
      else if current == Delivered || DeliveredReceipt in receipts then Delivered
      else HandedOver
    decreases |receipts|
  {
    if receipts != [] {
      ReceiptsInAnyOrder(Advanced(current, receipts[0]), receipts[1..]);
      assert receipts == [receipts[0]] + receipts[1..];
    }
  }
}
