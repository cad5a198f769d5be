/** WhatsApp Business opening hours: what a request may hold, and the form the engine gets. */
module BusinessHours {
  import opened Sorting
  import SendClock
  import SendPolicy

  datatype Range = Range(buka: string, tutup: string)
  datatype Day = Day(hari: int, rentang: seq<Range>)

  /** A stretch of minutes of the day, the last one excluded. */
  datatype Interval = Interval(opens: nat, closes: nat)

  predicate Clock(text: string) {
    SendPolicy.ClockTime(text) || text == "24:00"
  }

  function Minutes(text: string): nat
    requires Clock(text)
  {
    if text == "24:00" then 1440 else SendPolicy.Number(text, 0) * 60 + SendPolicy.Number(text, 3)
  }

  predicate RangeOk(r: Range) {
    SendPolicy.ClockTime(r.buka) && Clock(r.tutup) && Minutes(r.buka) < Minutes(r.tutup)
  }

  predicate AllRangesOk(ranges: seq<Range>) {
    forall i :: 0 <= i < |ranges| ==> RangeOk(ranges[i])
  }

  function Intervals(ranges: seq<Range>): seq<Interval>
    requires AllRangesOk(ranges)
  {
    seq(|ranges|, i requires 0 <= i < |ranges| => Interval(Minutes(ranges[i].buka), Minutes(ranges[i].tutup)))
  }

  predicate OpensFirst(a: Interval, b: Interval) {
    a.opens <= b.opens
  }

  /** Each range of the sorted list begins when the one before has ended, or later. */
  predicate Adjacent(s: seq<Interval>) {
    forall i :: 1 <= i < |s| ==> s[i - 1].closes <= s[i].opens
  }

  predicate RangesOk(ranges: seq<Range>) {
    1 <= |ranges| <= 6 && AllRangesOk(ranges) && Adjacent(Sort(OpensFirst, Intervals(ranges)))
  }

  predicate DayOk(day: Day) {
    1 <= day.hari <= 7 && RangesOk(day.rentang)
  }

  predicate DaysOk(days: seq<Day>) {
    && 1 <= |days| <= 7
    && (forall i :: 0 <= i < |days| ==> DayOk(days[i]))
    && (forall i, j :: 0 <= i < j < |days| ==> days[i].hari != days[j].hari)
  }

  // --------------------------------------------------------------------------- what is accepted

  /** The text says this minute of the day: `HH:MM`, or `24:00` for its end. */
  ghost predicate Says(text: string, minute: nat) {
    || (text == "24:00" && minute == 1440)
    || (exists h: nat, m: nat :: h < 24 && m < 60 && text == SendClock.Minutely(h, m) && minute == 60 * h + m)
  }

  lemma SaysMinutes(text: string)
    ensures Clock(text) <==> exists minute :: Says(text, minute)
    ensures Clock(text) ==> Minutes(text) <= 1440 && forall minute :: Says(text, minute) <==> minute == Minutes(text)
    ensures Clock(text) ==> (SendPolicy.ClockTime(text) <==> Minutes(text) < 1440)
  {
    SendClock.ClockTimeIff(text);
    SendClock.ClockTimeIff("24:00");
    forall h: nat, m: nat | h < 24 && m < 60 && text == SendClock.Minutely(h, m)
      ensures Clock(text) && Minutes(text) == 60 * h + m
    {
      assert text[0..2] == SendClock.Two(h) && text[3..5] == SendClock.Two(m);
      SendClock.TwoReads(h, text, 0);
      SendClock.TwoReads(m, text, 3);
    }
    if Clock(text) { assert Says(text, Minutes(text)); }
  }

  /** A range that is accepted: a time of the day, and a later one or the day's end. */
  ghost predicate SaysRange(r: Range, opens: nat, closes: nat) {
    Says(r.buka, opens) && Says(r.tutup, closes) && opens < closes
  }

  lemma RangeOkIff(r: Range)
    ensures RangeOk(r) <==> exists opens, closes :: SaysRange(r, opens, closes)
    ensures RangeOk(r) ==> SaysRange(r, Minutes(r.buka), Minutes(r.tutup))
  {
    SaysMinutes(r.buka);
    SaysMinutes(r.tutup);
    if opens: nat, closes: nat :| SaysRange(r, opens, closes) {
      assert Minutes(r.buka) == opens && Minutes(r.tutup) == closes;
      assert RangeOk(r);
    }
    if RangeOk(r) { assert SaysRange(r, Minutes(r.buka), Minutes(r.tutup)); }
  }

  // -------------------------------------------------------------------------------- no overlap

  predicate Covers(r: Interval, minute: nat) {
    r.opens <= minute < r.closes
  }

  function TimesCovered(s: seq<Interval>, minute: nat): nat {
    if s == [] then 0 else (if Covers(s[0], minute) then 1 else 0) + TimesCovered(s[1..], minute)
  }

  /** No minute of the day lies in two of the ranges. */
  ghost predicate NoOverlap(s: seq<Interval>) {
    forall minute: nat :: TimesCovered(s, minute) <= 1
  }

  predicate NoneEmpty(s: seq<Interval>) {
    forall i :: 0 <= i < |s| ==> s[i].opens < s[i].closes
  }

  lemma {:induction false} InsertCovers(x: Interval, s: seq<Interval>, minute: nat)
    ensures TimesCovered(Insert(OpensFirst, x, s), minute) == TimesCovered([x] + s, minute)
  {
    assert ([x] + s)[1..] == s;
    if s != [] && !OpensFirst(x, s[0]) {
      InsertCovers(x, s[1..], minute);
      var rest := Insert(OpensFirst, x, s[1..]);
      assert ([s[0]] + rest)[1..] == rest && ([x] + s[1..])[1..] == s[1..];
    }
  }

  lemma {:induction false} SortCovers(s: seq<Interval>, minute: nat)
    ensures TimesCovered(Sort(OpensFirst, s), minute) == TimesCovered(s, minute)
  {
    if s != [] {
      SortCovers(s[1..], minute);
      InsertCovers(s[0], Sort(OpensFirst, s[1..]), minute);
      assert ([s[0]] + Sort(OpensFirst, s[1..]))[1..] == Sort(OpensFirst, s[1..]);
    }
  }

  lemma {:induction false} NotCoveredBefore(s: seq<Interval>, minute: nat)
    requires forall i :: 0 <= i < |s| ==> minute < s[i].opens
    ensures TimesCovered(s, minute) == 0
  {
    if s != [] { NotCoveredBefore(s[1..], minute); }
  }

  lemma {:induction false} AdjacentCovers(s: seq<Interval>, minute: nat)
    requires Adjacent(s) && NoneEmpty(s) && Sorted(OpensFirst, s)
    ensures TimesCovered(s, minute) <= 1
  {
    if s != [] {
      if Covers(s[0], minute) {
        forall i | 0 <= i < |s[1..]| ensures minute < s[1..][i].opens {
          assert s[1].opens <= s[i + 1].opens;
        }
        NotCoveredBefore(s[1..], minute);
      } else {
        AdjacentCovers(s[1..], minute);
      }
    }
  }

  lemma {:induction false} BothCover(s: seq<Interval>, i: nat, minute: nat)
    requires i + 1 < |s| && Covers(s[i], minute) && Covers(s[i + 1], minute)
    ensures TimesCovered(s, minute) >= 2
  {
    if i == 0 {
      assert s[1..][0] == s[1];
    } else {
      BothCover(s[1..], i - 1, minute);
    }
  }

  lemma SortedAdjacentIff(s: seq<Interval>)
    requires NoneEmpty(s) && Sorted(OpensFirst, s)
    ensures Adjacent(s) <==> NoOverlap(s)
  {
    if Adjacent(s) {
      forall minute: nat ensures TimesCovered(s, minute) <= 1 { AdjacentCovers(s, minute); }
    } else {
      var i :| 1 <= i < |s| && s[i - 1].closes > s[i].opens;
      BothCover(s, i - 1, s[i].opens);
    }
  }

  /** The check of neighbours after sorting refuses exactly the overlaps, in whatever order the ranges came. */
  lemma NeighbourCheckIsNoOverlap(ranges: seq<Range>)
    requires AllRangesOk(ranges)
    ensures Adjacent(Sort(OpensFirst, Intervals(ranges))) <==> NoOverlap(Intervals(ranges))
  {
    var s := Intervals(ranges);
    SortIs(OpensFirst, s);
    SortMembers(OpensFirst, s);
    var sorted := Sort(OpensFirst, s);
    forall i | 0 <= i < |sorted| ensures sorted[i].opens < sorted[i].closes {
      assert sorted[i] in s;
    }
    SortedAdjacentIff(sorted);
    forall minute: nat ensures TimesCovered(sorted, minute) == TimesCovered(s, minute) { SortCovers(s, minute); }
  }

  /**
   * The form as a whole: one to seven days of the week, none twice; on each, one to six ranges that each say
   * two minutes of the day in order; and no minute in two ranges of a day.
   */
  lemma RequestIsAcceptedIff(days: seq<Day>)
    ensures DaysOk(days) <==>
      && 1 <= |days| <= 7
      && (forall i :: 0 <= i < |days| ==>
            && 1 <= days[i].hari <= 7 && 1 <= |days[i].rentang| <= 6
            && AllRangesOk(days[i].rentang) && NoOverlap(Intervals(days[i].rentang)))
      && (forall i, j :: 0 <= i < j < |days| ==> days[i].hari != days[j].hari)
  {
    forall i | 0 <= i < |days| && AllRangesOk(days[i].rentang)
      ensures Adjacent(Sort(OpensFirst, Intervals(days[i].rentang))) <==> NoOverlap(Intervals(days[i].rentang))
    {
      NeighbourCheckIsNoOverlap(days[i].rentang);
    }
  }

  // ---------------------------------------------------------------------------- the engine's form

  datatype EngineDay =
    | Open24h(day: int)
    | SpecificHours(day: int, openMinutes: nat, closeMinutes: nat)

  /** What an engine day says. */
  function Shown(e: EngineDay): Interval {
    match e
    case Open24h(_) => Interval(0, 1440)
    case SpecificHours(_, open, close) => Interval(open, close)
  }

  function FirstOpen(s: seq<Interval>): nat
    requires s != []
  {
    if |s| == 1 then s[0].opens
    else
      var rest := FirstOpen(s[1..]);
      if s[0].opens < rest then s[0].opens else rest
  }

  function LastClose(s: seq<Interval>): nat
    requires s != []
  {
    if |s| == 1 then s[0].closes
    else
      var rest := LastClose(s[1..]);
      if s[0].closes > rest then s[0].closes else rest
  }

  function EngineDayOf(day: Day): EngineDay
    requires DayOk(day)
  {
    var open, close := FirstOpen(Intervals(day.rentang)), LastClose(Intervals(day.rentang));
    if open == 0 && close == 1440 then Open24h(day.hari) else SpecificHours(day.hari, open, close)
  }

  predicate EarlierDay(a: Day, b: Day) {
    a.hari <= b.hari
  }

  function SortedDays(days: seq<Day>): (r: seq<Day>)
    requires DaysOk(days)
    ensures |r| == |days| && forall i :: 0 <= i < |r| ==> DayOk(r[i])
  {
    SortMembers(EarlierDay, days);
    assert forall i :: 0 <= i < |Sort(EarlierDay, days)| ==> Sort(EarlierDay, days)[i] in days;
    Sort(EarlierDay, days)
  }

  /** `hari` 1 to 7 are `mon` to `sun`. */
  function EngineBusinessHours(days: seq<Day>): seq<EngineDay>
    requires DaysOk(days)
  {
    seq(|days|, i requires 0 <= i < |days| => EngineDayOf(SortedDays(days)[i]))
  }

  predicate IsOpen(day: Day, minute: nat)
    requires DayOk(day)
  {
    exists i :: 0 <= i < |day.rentang| && Covers(Intervals(day.rentang)[i], minute)
  }

  lemma {:induction false} EndsAreMet(s: seq<Interval>) returns (a: nat, b: nat)
    requires s != [] && NoneEmpty(s)
    ensures a < |s| && s[a].opens == FirstOpen(s)
    ensures b < |s| && s[b].closes == LastClose(s)
    ensures forall i :: 0 <= i < |s| ==> FirstOpen(s) <= s[i].opens && s[i].closes <= LastClose(s)
  {
    a, b := 0, 0;
    if |s| > 1 {
      var a', b' := EndsAreMet(s[1..]);
      if s[0].opens >= FirstOpen(s[1..]) { a := a' + 1; }
      if s[0].closes <= LastClose(s[1..]) { b := b' + 1; }
      forall i | 0 <= i < |s| ensures FirstOpen(s) <= s[i].opens && s[i].closes <= LastClose(s) {
        if i > 0 { assert s[1..][i - 1] == s[i]; }
      }
    }
  }

  /** The engine's interval holds every open minute of the day and begins and ends with one. */
  lemma EngineDayIsTight(day: Day)
    requires DayOk(day)
    ensures var shown := Shown(EngineDayOf(day));
      && (forall minute: nat :: IsOpen(day, minute) ==> Covers(shown, minute))
      && shown.opens < shown.closes <= 1440 && IsOpen(day, shown.opens) && IsOpen(day, shown.closes - 1)
    ensures EngineDayOf(day).day == day.hari
    ensures EngineDayOf(day).Open24h? <==> IsOpen(day, 0) && IsOpen(day, 1439)
  {
    var s := Intervals(day.rentang);
    var a, b := EndsAreMet(s);
    assert RangeOk(day.rentang[a]) && RangeOk(day.rentang[b]);
    var open, close := FirstOpen(s), LastClose(s);
    assert Covers(s[a], open) && Covers(s[b], close - 1);
    assert Shown(EngineDayOf(day)) == Interval(open, close);
    if IsOpen(day, 0) && IsOpen(day, 1439) {
      assert open == 0 && close == 1440;
    }
  }

  /** So it is the smallest such interval. */
  lemma EngineDayIsSmallest(day: Day, other: Interval)
    requires DayOk(day) && forall minute: nat :: IsOpen(day, minute) ==> Covers(other, minute)
    ensures other.opens <= Shown(EngineDayOf(day)).opens && Shown(EngineDayOf(day)).closes <= other.closes
  {
    EngineDayIsTight(day);
    var shown := Shown(EngineDayOf(day));
    assert Covers(other, shown.opens) && Covers(other, shown.closes - 1);
  }

  /** Every requested day once, in the order of the week, and no other. */
  lemma EngineDaysAreTheRequested(days: seq<Day>)
    requires DaysOk(days)
    ensures var engine := EngineBusinessHours(days);
      && (forall i, j :: 0 <= i < j < |engine| ==> engine[i].day < engine[j].day)
      && (forall d :: d in days ==> EngineDayOf(d) in engine)
      && (forall e :: e in engine ==> exists d :: d in days && e == EngineDayOf(d))
  {
    var sorted := SortedDays(days);
    var engine := EngineBusinessHours(days);
    SortIs(EarlierDay, days);
    SortMembers(EarlierDay, days);
    forall i, j | 0 <= i < j < |engine| ensures engine[i].day < engine[j].day {
      EngineDayIsTight(sorted[i]);
      EngineDayIsTight(sorted[j]);
      assert EarlierDay(sorted[i], sorted[j]);
      SortKeepsApart(days, i, j);
    }
    forall d | d in days ensures EngineDayOf(d) in engine {
      var i :| 0 <= i < |sorted| && sorted[i] == d;
      assert engine[i] == EngineDayOf(d);
    }
    forall e | e in engine ensures exists d :: d in days && e == EngineDayOf(d) {
      var i :| 0 <= i < |engine| && engine[i] == e;
      assert sorted[i] in days;
    }
  }

  lemma SortKeepsApart(days: seq<Day>, i: nat, j: nat)
    requires DaysOk(days) && i < j < |days|
    ensures SortedDays(days)[i].hari != SortedDays(days)[j].hari
  {
    var sorted := SortedDays(days);
    SortNoRepeats(EarlierDay, days);
    SortMembers(EarlierDay, days);
    assert sorted[i] in days && sorted[j] in days && sorted[i] != sorted[j];
    SameDaySameEntry(days, sorted[i], sorted[j]);
  }

  lemma SameDaySameEntry(days: seq<Day>, x: Day, y: Day)
    requires DaysOk(days) && x in days && y in days && x != y
    ensures x.hari != y.hari
  {
    var a :| 0 <= a < |days| && days[a] == x;
    var b :| 0 <= b < |days| && days[b] == y;
    assert if a < b then days[a].hari != days[b].hari else days[b].hari != days[a].hari;
  }
}
