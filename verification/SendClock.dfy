/**
 * The send window against the clock on the wall: what an instant reads in WIB, written out in digits,
 * decides by text order whether a notification may leave.
 */
module SendClock {
  import opened Common
  import opened TextOrder
  import opened SendPolicy

  // -------------------------------------------------------------------------------- written times

  function Two(n: nat): string
    requires n < 100
  {
    ["0123456789"[n / 10], "0123456789"[n % 10]]
  }

  /** `HH:MM`, as the admin form sends it. */
  function Minutely(h: nat, m: nat): string
    requires h < 100 && m < 100
  {
    Two(h) + ":" + Two(m)
  }

  /** `HH:MM:SS`, as the database hands it to the worker. */
  function Secondly(h: nat, m: nat, s: nat): string
    requires h < 100 && m < 100 && s < 100
  {
    Two(h) + ":" + Two(m) + ":" + Two(s)
  }

  lemma DigitReads(i: nat)
    requires i < 10
    ensures "0123456789"[i] == '0' + i as char
    ensures Digit("0123456789"[i]) && Value("0123456789"[i]) == i
  {
    assert i in {0, 1, 2, 3, 4, 5, 6, 7, 8, 9};
  }

  lemma TwoReads(n: nat, text: string, i: nat)
    requires n < 100 && i + 2 <= |text| && text[i..i + 2] == Two(n)
    ensures TwoDigits(text, i) && Number(text, i) == n
  {
    assert text[i] == Two(n)[0] && text[i + 1] == Two(n)[1];
    DigitReads(n / 10);
    DigitReads(n % 10);
  }

  lemma TwoWrites(text: string, i: nat)
    requires TwoDigits(text, i)
    ensures Number(text, i) < 100 && text[i..i + 2] == Two(Number(text, i))
  {
    var n := Number(text, i);
    assert n / 10 == Value(text[i]) && n % 10 == Value(text[i + 1]);
    DigitReads(n / 10);
    DigitReads(n % 10);
  }

  lemma ShortReads(h: nat, m: nat)
    requires h < 100 && m < 100
    ensures TimeOfDay(Minutely(h, m)) == Some(3_600_000 * h + 60_000 * m)
  {
    var short := Minutely(h, m);
    assert short[0..2] == Two(h) && short[3..5] == Two(m);
    TwoReads(h, short, 0);
    TwoReads(m, short, 3);
  }

  lemma LongReads(h: nat, m: nat, s: nat)
    requires h < 100 && m < 100 && s < 100
    ensures TimeOfDay(Secondly(h, m, s)) == Some(3_600_000 * h + 60_000 * m + 1_000 * s)
  {
    var long := Secondly(h, m, s);
    assert long[0..2] == Two(h) && long[3..5] == Two(m) && long[6..8] == Two(s);
    TwoReads(h, long, 0);
    TwoReads(m, long, 3);
    TwoReads(s, long, 6);
  }

  /** A written time is read as what it says, with and without seconds. */
  lemma WrittenTimeIs(h: nat, m: nat, s: nat)
    requires h < 100 && m < 100 && s < 100
    ensures TimeOfDay(Minutely(h, m)) == Some(3_600_000 * h + 60_000 * m)
    ensures TimeOfDay(Secondly(h, m, s)) == Some(3_600_000 * h + 60_000 * m + 1_000 * s)
  {
    ShortReads(h, m);
    LongReads(h, m, s);
  }

  ghost predicate WrittenShort(text: string) {
    exists h: nat, m: nat :: h < 100 && m < 100 && text == Minutely(h, m)
  }

  ghost predicate WrittenLong(text: string) {
    exists h: nat, m: nat, s: nat :: h < 100 && m < 100 && s < 100 && text == Secondly(h, m, s)
  }

  lemma ReadShort(text: string)
    requires |text| == 5 && TwoDigits(text, 0) && text[2] == ':' && TwoDigits(text, 3)
    ensures Number(text, 0) < 100 && Number(text, 3) < 100 && text == Minutely(Number(text, 0), Number(text, 3))
  {
    TwoWrites(text, 0);
    TwoWrites(text, 3);
    assert text == text[0..2] + [text[2]] + text[3..5];
  }

  lemma ReadLong(text: string)
    requires |text| == 8 && TwoDigits(text, 0) && text[2] == ':' && TwoDigits(text, 3) && text[5] == ':'
    requires TwoDigits(text, 6)
    ensures WrittenLong(text)
  {
    TwoWrites(text, 0);
    TwoWrites(text, 3);
    TwoWrites(text, 6);
    assert text == text[0..2] + [text[2]] + text[3..5] + [text[5]] + text[6..8];
    assert text == Secondly(Number(text, 0), Number(text, 3), Number(text, 6));
  }

  /** Nothing else is read as a time. */
  lemma OnlyWrittenTimesAreRead(text: string)
    ensures TimeOfDay(text).Some? <==> WrittenShort(text) || WrittenLong(text)
  {
    if h: nat, m: nat :| h < 100 && m < 100 && text == Minutely(h, m) { WrittenTimeIs(h, m, 0); }
    if h: nat, m: nat, s: nat :| h < 100 && m < 100 && s < 100 && text == Secondly(h, m, s) { WrittenTimeIs(h, m, s); }
    if TimeOfDay(text).Some? {
      if |text| == 5 { ReadShort(text); } else { ReadLong(text); }
    }
  }

  /** The form accepts exactly the minutes of a day. */
  lemma ClockTimeIff(text: string)
    ensures ClockTime(text) <==> exists h: nat, m: nat :: h < 24 && m < 60 && text == Minutely(h, m)
  {
    if h: nat, m: nat :| h < 24 && m < 60 && text == Minutely(h, m) {
      assert text[0..2] == Two(h) && text[3..5] == Two(m);
      TwoReads(h, text, 0);
      TwoReads(m, text, 3);
    }
    if ClockTime(text) { ReadShort(text); }
  }

  // ------------------------------------------------------------------------------- the wall clock

  /** What the clock shows in WIB, seven hours ahead of the epoch's zone. */
  function Wall(t: int): string {
    var local := t + 25_200_000;
    Secondly(local / 3_600_000 % 24, local / 60_000 % 60, local / 1_000 % 60)
  }

  /** Hours, minutes, seconds and milliseconds of any instant. */
  lemma WallParts(t: int) returns (day: int, h: nat, m: nat, s: nat, ms: nat)
    ensures t == 86_400_000 * day + 3_600_000 * h + 60_000 * m + 1_000 * s + ms - 25_200_000
    ensures h < 24 && m < 60 && s < 60 && ms < 1_000
    ensures Wall(t) == Secondly(h, m, s)
  {
    var local := t + 25_200_000;
    var hours, minutes, seconds := local / 3_600_000, local / 60_000, local / 1_000;
    assert minutes / 60 == hours && seconds / 60 == minutes;
    day, h, m, s, ms := hours / 24, hours % 24, minutes % 60, seconds % 60, local % 1_000;
  }

  lemma OffsetIs(t: int, day: int, offset: int)
    requires t == 86_400_000 * day + offset - 25_200_000 && 0 <= offset < 86_400_000
    ensures OffsetInDay(t) == offset
  {
  }

  /** Two digits decide, or the rest does. */
  lemma TwoThenRest(x: nat, y: nat, a: string, b: string)
    requires x < 100 && y < 100
    ensures TextLess(Two(x) + a, Two(y) + b) <==> x < y || (x == y && TextLess(a, b))
  {
    var p, q := Two(x) + a, Two(y) + b;
    assert p[1..] == [p[1]] + a && q[1..] == [q[1]] + b;
    assert p[1..][1..] == a && q[1..][1..] == b;
    DigitReads(x / 10);
    DigitReads(x % 10);
    DigitReads(y / 10);
    DigitReads(y % 10);
    assert p[0] < q[0] <==> x / 10 < y / 10;
    assert p[0] == q[0] <==> x / 10 == y / 10;
    assert p[1] < q[1] <==> x % 10 < y % 10;
    assert p[1] == q[1] <==> x % 10 == y % 10;
  }

  lemma ColonThenRest(a: string, b: string)
    ensures TextLess(":" + a, ":" + b) <==> TextLess(a, b)
  {
    assert (":" + a)[1..] == a && (":" + b)[1..] == b;
  }

  /** Of times written with seconds, text order is time order. */
  lemma SecondsInOrder(h: nat, m: nat, s: nat, h': nat, m': nat, s': nat)
    requires h < 100 && m < 60 && s < 60 && h' < 100 && m' < 60 && s' < 60
    ensures TextLess(Secondly(h, m, s), Secondly(h', m', s')) <==> 3600 * h + 60 * m + s < 3600 * h' + 60 * m' + s'
  {
    var a, b := Two(s), Two(s');
    assert a == a + "" && b == b + "";
    TwoThenRest(s, s', "", "");
    ColonThenRest(a, b);
    TwoThenRest(m, m', ":" + a, ":" + b);
    ColonThenRest(Two(m) + (":" + a), Two(m') + (":" + b));
    TwoThenRest(h, h', ":" + (Two(m) + (":" + a)), ":" + (Two(m') + (":" + b)));
    assert Secondly(h, m, s) == Two(h) + (":" + (Two(m) + (":" + a)));
    assert Secondly(h', m', s') == Two(h') + (":" + (Two(m') + (":" + b)));
  }

  /** By the wall clock, at or after the start and before the end. */
  predicate InWindow(t: int, start: string, end: string) {
    TextLeq(start + ":00", Wall(t)) && TextLess(Wall(t), end + ":00")
  }

  lemma OpenIsByTheClock(t: int, start: string, end: string)
    requires ClockTime(start) && ClockTime(end)
    ensures TimeOfDay(start).Some? && TimeOfDay(end).Some?
    ensures OpenAt(t, TimeOfDay(start).value, TimeOfDay(end).value) <==> InWindow(t, start, end)
  {
    ClockTimeIff(start);
    ClockTimeIff(end);
    var a: nat, b: nat :| a < 24 && b < 60 && start == Minutely(a, b);
    var c: nat, d: nat :| c < 24 && d < 60 && end == Minutely(c, d);
    WrittenTimeIs(a, b, 0);
    WrittenTimeIs(c, d, 0);
    assert start + ":00" == Secondly(a, b, 0) && end + ":00" == Secondly(c, d, 0);
    var day, h, m, s, ms := WallParts(t);
    OffsetIs(t, day, 3_600_000 * h + 60_000 * m + 1_000 * s + ms);
    SecondsInOrder(h, m, s, a, b, 0);
    SecondsInOrder(h, m, s, c, d, 0);
    TextLessTrichotomy(start + ":00", Wall(t));
  }

  /** The window is open exactly while the wall clock is in it, on the times as the worker reads them. */
  lemma WindowIsByTheClock(t: int, start: string, end: string)
    requires ClockTime(start) && ClockTime(end)
    ensures TimeOfDay(start + ":00").Some? && TimeOfDay(end + ":00").Some?
    ensures SendWindow(t, TimeOfDay(start + ":00").value, TimeOfDay(end + ":00").value).Open?
      <==> InWindow(t, start, end)
  {
    SecondsAddNothing(start);
    SecondsAddNothing(end);
    OpenIsByTheClock(t, start, end);
    var day, offset := DayOf(t);
  }

  /**
   * The whole decision by the wall clock, for the times the admin form accepts: what is no notification, or
   * answers somebody, leaves at once; a notification leaves while the clock is in the window, else it
   * waits for the first instant at which it is, and has failed if it expires before that.
   */
  lemma DecisionIsByTheClock(
      now: int, kind: MessageKind, start: string, end: string, expiresAt: int, replying: bool)
    requires ClockTime(start) && ClockTime(end) && TextLess(start, end)
    ensures TimeOfDay(start + ":00").Some? && TimeOfDay(end + ":00").Some?
    ensures var d := Decide(now, kind, TimeOfDay(start + ":00").value, TimeOfDay(end + ":00").value, expiresAt,
        replying);
      if kind != Notification || replying then d == if now < expiresAt then Send else Expire
      else
        && (d == Send <==> now < expiresAt && InWindow(now, start, end))
        && (d.Wait? ==>
              && now < d.until < expiresAt && InWindow(d.until, start, end)
              && forall t :: now <= t < d.until ==> !InWindow(t, start, end))
        && (d == Expire <==> forall t :: now <= t < expiresAt ==> !InWindow(t, start, end))
  {
    SecondsAddNothing(start);
    SecondsAddNothing(end);
    AdminCheckGivesRealWindow(start, end);
    var a, b := TimeOfDay(start).value, TimeOfDay(end).value;
    forall t: int ensures OpenAt(t, a, b) <==> InWindow(t, start, end) { OpenIsByTheClock(t, start, end); }
    DecisionIsExact(now, kind, a, b, expiresAt, replying);
    assert forall t :: Permitted(t, Notification, a, b, false) <==> InWindow(t, start, end);
  }

  lemma MidnightReads(day: int)
    ensures Wall(86_400_000 * day - 25_200_000) == "00:00:00"
  {
    var day', h, m, s, ms := WallParts(86_400_000 * day - 25_200_000);
    assert day' == day && h == m == s == ms == 0;
    assert Secondly(0, 0, 0) == "00:00:00";
  }

  /** The day of an instant starts at midnight on the wall, at most a day before. */
  lemma DayStartIsMidnight(t: int) returns (day: int)
    ensures DayStart(t) == 86_400_000 * day - 25_200_000 <= t < DayStart(t) + 86_400_000
    ensures Wall(DayStart(t)) == "00:00:00"
  {
    var offset: int;
    day, offset := DayOf(t);
    OffsetOf(day, offset);
    MidnightReads(day);
  }
}
