/** Series colours and line gaps of the governance charts. */
module ChartModel {
  import opened Common
  import opened Sorting

  /** The palette's five colours, all different; a colour is named by its place. */
  const PALETTE: nat := 5

  const WORD: nat := 0x1_0000_0000

  // -------------------------------------------------------------------------------- the home slot

  /** The first UTF-16 unit of a character. */
  function Unit(c: char): nat {
    var code := c as int;
    if code < 0x10000 then code else 0xD800 + (code - 0x10000) / 0x400
  }

  /** The key read as a number in base 31, without any wrap-around. */
  function Number31(key: string): nat {
    if key == [] then 0 else Number31(key[..|key| - 1]) * 31 + Unit(key[|key| - 1])
  }

  function Home(key: string): (slot: nat)
    ensures slot < PALETTE
  {
    Number31(key) % WORD % PALETTE
  }

  function Power31(n: nat): nat {
    if n == 0 then 1 else 31 * Power31(n - 1)
  }

  /** Every character by its place: the first UTF-16 unit of each, the last one counted once. */
  function ByPlace(units: seq<nat>): nat {
    if units == [] then 0 else units[0] * Power31(|units| - 1) + ByPlace(units[1..])
  }

  lemma {:induction false} OnePlaceMore(units: seq<nat>, unit: nat)
    ensures ByPlace(units + [unit]) == 31 * ByPlace(units) + unit
  {
    var longer := units + [unit];
    if units == [] {
      assert longer[1..] == [] && Power31(0) == 1;
    } else {
      OnePlaceMore(units[1..], unit);
      assert longer[1..] == units[1..] + [unit];
      assert Power31(|units|) == 31 * Power31(|units| - 1);
      assert units[0] * (31 * Power31(|units| - 1)) == 31 * (units[0] * Power31(|units| - 1));
    }
  }

  /** The unit is the character itself, or the first half of the pair that stands for it. */
  ghost predicate FirstUnit(c: char, unit: nat) {
    var code := c as int;
    if code < 65_536 then unit == code
    else 55_296 <= unit && 1_024 * (unit - 55_296) <= code - 65_536 < 1_024 * (unit - 55_295)
  }

  lemma UnitIs(c: char, unit: nat)
    ensures unit == Unit(c) <==> FirstUnit(c, unit)
  {
  }

  lemma {:induction false} NumberIsByPlace(key: string, units: seq<nat>)
    requires |units| == |key| && forall i :: 0 <= i < |key| ==> FirstUnit(key[i], units[i])
    ensures Number31(key) == ByPlace(units)
    decreases |key|
  {
    if key != [] {
      var n := |key| - 1;
      NumberIsByPlace(key[..n], units[..n]);
      OnePlaceMore(units[..n], units[n]);
      assert units == units[..n] + [units[n]];
      assert FirstUnit(key[n], units[n]);
    }
  }

  /** The home slot: the sum of the units by their places in base 31, cut to 32 bits, over five colours. */
  lemma HomeIsTheSum(key: string)
    ensures exists units: seq<nat> ::
      && |units| == |key| && (forall i :: 0 <= i < |key| ==> FirstUnit(key[i], units[i]))
      && Home(key) == ByPlace(units) % 4_294_967_296 % 5
  {
    var units: seq<nat> := seq(|key|, i requires 0 <= i < |key| => Unit(key[i]));
    forall i | 0 <= i < |key| ensures FirstUnit(key[i], units[i]) { UnitIs(key[i], units[i]); }
    NumberIsByPlace(key, units);
    assert Home(key) == ByPlace(units) % 4_294_967_296 % 5;
  }

  lemma WrapEarlyOrLate(n: nat, add: nat)
    ensures (n % WORD * 31 + add) % WORD == (n * 31 + add) % WORD
  {
    var q, r := n / WORD, n % WORD;
    var low := r * 31 + add;
    assert n * 31 + add == low + WORD * (q * 31);
    var m := low / WORD;
    assert n * 31 + add == WORD * (m + q * 31) + low % WORD;
    DivisionIsUnique(n * 31 + add, m + q * 31, low % WORD);
  }

  lemma DivisionIsUnique(n: nat, q: nat, r: nat)
    requires n == WORD * q + r && r < WORD
    ensures n % WORD == r
  {
  }

  /** Cutting to 32 bits after every character is cutting once at the end. */
  method SlotFor(key: string) returns (slot: nat)
    ensures slot == Home(key)
  {
    var hash := 0;
    var i := 0;
    while i < |key|
      invariant 0 <= i <= |key|
      invariant hash == Number31(key[..i]) % WORD
    {
      assert key[..i + 1][..i] == key[..i];
      WrapEarlyOrLate(Number31(key[..i]), Unit(key[i]));
      hash := (hash * 31 + Unit(key[i])) % WORD;
      i := i + 1;
    }
    assert key[..i] == key;
    slot := hash % PALETTE;
  }

  // ------------------------------------------------------------------------------------- colours

  datatype Chart = Chart(used: set<nat>, colours: map<string, nat>)

  /** The slot `e` places further round. */
  function After(slot: nat, e: nat): nat {
    (slot + e) % PALETTE
  }

  function Probe(used: set<nat>, slot: nat, steps: nat): nat
    decreases steps
  {
    if steps == 0 || slot !in used then slot else Probe(used, (slot + 1) % PALETTE, steps - 1)
  }

  function Coloured(chart: Chart, key: string): Chart {
    var slot := Probe(chart.used, Home(key), PALETTE);
    Chart(chart.used + {slot}, chart.colours[key := slot])
  }

  function ColouredAll(chart: Chart, keys: seq<string>): Chart
    decreases |keys|
  {
    if keys == [] then chart else Coloured(ColouredAll(chart, keys[..|keys| - 1]), keys[|keys| - 1])
  }

  /** `leq` is the order `sort()` uses on text. */
  function Colours(leq: (string, string) -> bool, keys: seq<string>): map<string, nat> {
    ColouredAll(Chart({}, map[]), Sort(leq, keys)).colours
  }

  method SeriesColours(leq: (string, string) -> bool, keys: seq<string>) returns (colours: map<string, nat>)
    ensures colours == Colours(leq, keys)
  {
    var sorted := Sort(leq, keys);
    var used: set<nat> := {};
    colours := map[];
    var i := 0;
    while i < |sorted|
      invariant 0 <= i <= |sorted|
      invariant Chart(used, colours) == ColouredAll(Chart({}, map[]), sorted[..i])
    {
      var slot: nat := SlotFor(sorted[i]);
      var step := 0;
      while step < PALETTE && slot in used
        invariant 0 <= step <= PALETTE && slot < PALETTE
        invariant Probe(used, slot, PALETTE - step) == Probe(used, Home(sorted[i]), PALETTE)
      {
        slot := (slot + 1) % PALETTE;
        step := step + 1;
      }
      assert sorted[..i + 1][..i] == sorted[..i];
      used := used + {slot};
      colours := colours[sorted[i] := slot];
      i := i + 1;
    }
    assert sorted[..i] == sorted;
  }

  ghost predicate Full(used: set<nat>) {
    forall slot :: 0 <= slot < PALETTE ==> slot in used
  }

  /** The slots are tried in a circle; the first free one is taken. */
  lemma {:induction false} ProbeTakesFirstFree(used: set<nat>, slot: nat, steps: nat) returns (d: nat)
    requires slot < PALETTE
    ensures d <= steps && Probe(used, slot, steps) == After(slot, d)
    ensures forall e: nat :: e < d ==> After(slot, e) in used
    ensures d < steps ==> After(slot, d) !in used
    decreases steps
  {
    if steps == 0 || slot !in used {
      d := 0;
      assert After(slot, 0) == slot;
    } else {
      var next := ProbeTakesFirstFree(used, After(slot, 1), steps - 1);
      d := next + 1;
      assert After(After(slot, 1), next) == After(slot, d);
      forall e: nat | e < d ensures After(slot, e) in used {
        if e > 0 { assert After(After(slot, 1), e - 1) == After(slot, e); }
      }
    }
  }

  lemma EverySlotIsAfter(slot: nat, s: nat) returns (e: nat)
    requires slot < PALETTE && s < PALETTE
    ensures e < PALETTE && After(slot, e) == s
  {
    e := if s >= slot then s - slot else s + PALETTE - slot;
  }

  /** A free colour when there is one; the key's own when it is free, or when none is. */
  lemma ProbeIs(used: set<nat>, slot: nat)
    requires slot < PALETTE
    ensures Probe(used, slot, PALETTE) < PALETTE
    ensures slot !in used || Full(used) ==> Probe(used, slot, PALETTE) == slot
    ensures Probe(used, slot, PALETTE) in used <==> Full(used)
  {
    var d := ProbeTakesFirstFree(used, slot, PALETTE);
    if d == PALETTE {
      forall s | 0 <= s < PALETTE ensures s in used {
        var e := EverySlotIsAfter(slot, s);
      }
    }
  }

  /** After some keys every used colour is in the palette, and every key has a used one. */
  ghost predicate Consistent(chart: Chart) {
    && (forall slot :: slot in chart.used ==> slot < PALETTE)
    && (forall key :: key in chart.colours ==> chart.colours[key] in chart.used)
  }

  ghost predicate AllDifferent(colours: map<string, nat>) {
    forall a, b :: a in colours && b in colours && a != b ==> colours[a] != colours[b]
  }

  lemma SomeColourIsFree(used: set<nat>)
    requires |used| < PALETTE
    ensures !Full(used)
  {
    var all: set<nat> := {0, 1, 2, 3, 4};
    assert |all| == 5;
    SubsetSize(all, used);
  }

  lemma SubsetSize<T>(a: set<T>, b: set<T>)
    ensures a <= b ==> |a| <= |b|
  {
    if a <= b { assert b == a + (b - a); }
  }

  lemma ColouredKeeps(before: Chart, front: seq<string>, key: string)
    requires Consistent(before) && |before.used| <= |front| && forall k :: k in before.colours <==> k in front
    ensures var chart := Coloured(before, key);
      Consistent(chart) && |chart.used| <= |front| + 1 && forall k :: k in chart.colours <==> k in front + [key]
    ensures |front| < PALETTE && AllDifferent(before.colours) ==> AllDifferent(Coloured(before, key).colours)
  {
    ProbeIs(before.used, Home(key));
    if |front| < PALETTE { SomeColourIsFree(before.used); }
  }

  lemma {:induction false} ColouredAllIs(keys: seq<string>)
    ensures var chart := ColouredAll(Chart({}, map[]), keys);
      && Consistent(chart) && |chart.used| <= |keys| && (forall key :: key in chart.colours <==> key in keys)
      && (|keys| <= PALETTE ==> AllDifferent(chart.colours))
    decreases |keys|
  {
    if keys != [] {
      var front, key := keys[..|keys| - 1], keys[|keys| - 1];
      assert keys == front + [key];
      ColouredAllIs(front);
      ColouredKeeps(ColouredAll(Chart({}, map[]), front), front, key);
    }
  }

  /** Up to five entries: different series get different colours. */
  lemma FiveGetDifferentColours(leq: (string, string) -> bool, keys: seq<string>)
    requires Order(leq) && |keys| <= PALETTE
    ensures AllDifferent(Colours(leq, keys))
  {
    SortMembers(leq, keys);
    ColouredAllIs(Sort(leq, keys));
  }

  lemma {:induction false} ImageSize(colours: map<string, nat>, keys: set<string>)
    requires keys <= colours.Keys && AllDifferent(colours)
    requires forall key :: key in keys ==> colours[key] < PALETTE
    ensures |keys| <= PALETTE
  {
    var image := set key | key in keys :: colours[key];
    SameSize(colours, keys, image);
    assert image <= {0, 1, 2, 3, 4};
    SubsetSize(image, {0, 1, 2, 3, 4});
  }

  lemma {:induction false} SameSize(colours: map<string, nat>, keys: set<string>, image: set<nat>)
    requires keys <= colours.Keys && AllDifferent(colours) && image == set key | key in keys :: colours[key]
    ensures |image| == |keys|
    decreases |keys|
  {
    if keys != {} {
      var key :| key in keys;
      var rest := keys - {key};
      SameSize(colours, rest, image - {colours[key]});
    }
  }

  lemma {:induction false} NoRepeatsSize(keys: seq<string>)
    requires NoRepeats(keys)
    ensures |(set key | key in keys)| == |keys|
    decreases |keys|
  {
    if keys != [] {
      var front, last := keys[..|keys| - 1], keys[|keys| - 1];
      NoRepeatsSize(front);
      assert keys == front + [last];
      assert (set key | key in keys) == (set key | key in front) + {last};
    }
  }

  /**
   * A chart whose keys are all different, as its contract guarantees, shows them in different colours exactly
   * when it has five at most.
   */
  lemma DifferentColoursIff(leq: (string, string) -> bool, keys: seq<string>)
    requires Order(leq) && NoRepeats(keys)
    ensures AllDifferent(Colours(leq, keys)) <==> |keys| <= PALETTE
  {
    SortMembers(leq, keys);
    ColouredAllIs(Sort(leq, keys));
    if AllDifferent(Colours(leq, keys)) {
      NoRepeatsSize(keys);
      ImageSize(Colours(leq, keys), set key | key in keys);
    }
  }

  /** The input order does not matter: only which keys there are, and how often. */
  lemma OrderDoesNotMatter(leq: (string, string) -> bool, keys: seq<string>, others: seq<string>)
    requires Order(leq) && Antisymmetric(leq) && multiset(keys) == multiset(others)
    ensures Colours(leq, keys) == Colours(leq, others)
  {
    SortIs(leq, keys);
    SortIs(leq, others);
    SortedIsUnique(leq, Sort(leq, keys), Sort(leq, others));
  }

  lemma {:induction false} LaterKeysLeaveColours(chart: Chart, keys: seq<string>, key: string)
    requires key in chart.colours && key !in keys
    ensures key in ColouredAll(chart, keys).colours && ColouredAll(chart, keys).colours[key] == chart.colours[key]
    decreases |keys|
  {
    if keys != [] { LaterKeysLeaveColours(chart, keys[..|keys| - 1], key); }
  }

  lemma {:induction false} ColouredInTwoParts(chart: Chart, a: seq<string>, b: seq<string>)
    ensures ColouredAll(chart, a + b) == ColouredAll(ColouredAll(chart, a), b)
    decreases |b|
  {
    if b == [] {
      assert a + b == a;
    } else {
      assert (a + b)[..|a + b| - 1] == a + b[..|b| - 1];
      ColouredInTwoParts(chart, a, b[..|b| - 1]);
    }
  }

  lemma SortedInTwoParts(leq: (string, string) -> bool, first: seq<string>, second: seq<string>)
    requires Sorted(leq, first) && Sorted(leq, second)
    requires forall a, b :: a in first && b in second ==> leq(a, b)
    ensures Sorted(leq, first + second)
  {
    var joined := first + second;
    forall i, j | 0 <= i < j < |joined| ensures leq(joined[i], joined[j]) {
      if i < |first| <= j {
        assert joined[i] == first[i] && joined[j] == second[j - |first|];
      }
    }
  }

  lemma SortInTwoParts(leq: (string, string) -> bool, keys: seq<string>, more: seq<string>)
    requires Order(leq) && Antisymmetric(leq)
    requires forall a, b :: a in keys && b in more ==> leq(a, b)
    ensures Sort(leq, keys + more) == Sort(leq, keys) + Sort(leq, more)
  {
    SortIs(leq, keys);
    SortIs(leq, more);
    SortIs(leq, keys + more);
    SortMembers(leq, keys);
    SortMembers(leq, more);
    SortedInTwoParts(leq, Sort(leq, keys), Sort(leq, more));
    SortedIsUnique(leq, Sort(leq, keys + more), Sort(leq, keys) + Sort(leq, more));
  }

  /** Keys that sort later never change a colour that is there already. */
  lemma LaterSeriesChangeNothing(leq: (string, string) -> bool, keys: seq<string>, more: seq<string>, key: string)
    requires Order(leq) && Antisymmetric(leq)
    requires forall a, b :: a in keys && b in more ==> leq(a, b) && a != b
    requires key in keys
    ensures key in Colours(leq, keys) && key in Colours(leq, keys + more)
    ensures Colours(leq, keys + more)[key] == Colours(leq, keys)[key]
  {
    var first, second := Sort(leq, keys), Sort(leq, more);
    SortInTwoParts(leq, keys, more);
    SortMembers(leq, keys);
    SortMembers(leq, more);
    ColouredAllIs(first);
    LaterPartLeavesColours(first, second, key);
  }

  lemma LaterPartLeavesColours(first: seq<string>, second: seq<string>, key: string)
    requires key !in second && key in ColouredAll(Chart({}, map[]), first).colours
    ensures key in ColouredAll(Chart({}, map[]), first + second).colours
    ensures ColouredAll(Chart({}, map[]), first + second).colours[key] ==
      ColouredAll(Chart({}, map[]), first).colours[key]
  {
    ColouredInTwoParts(Chart({}, map[]), first, second);
    LaterKeysLeaveColours(ColouredAll(Chart({}, map[]), first), second, key);
  }

  // -------------------------------------------------------------------- when another series is absent

  ghost predicate HomesDiffer(keys: seq<string>) {
    forall a, b :: a in keys && b in keys && a != b ==> Home(a) != Home(b)
  }

  /** Whichever of the series are absent, those that are left have the colours of the full chart. */
  ghost predicate AbsenceChangesNothing(leq: (string, string) -> bool, keys: seq<string>) {
    forall part: seq<string>, key :: NoRepeats(part) && (forall k :: k in part ==> k in keys) && key in part ==>
      key in Colours(leq, part) && key in Colours(leq, keys) && Colours(leq, part)[key] == Colours(leq, keys)[key]
  }

  lemma {:induction false} HomeColours(keys: seq<string>)
    requires NoRepeats(keys) && HomesDiffer(keys)
    ensures var chart := ColouredAll(Chart({}, map[]), keys);
      && (forall slot :: slot in chart.used ==> exists key :: key in keys && slot == Home(key))
      && (forall key :: key in keys ==> key in chart.colours && chart.colours[key] == Home(key))
    decreases |keys|
  {
    if keys != [] {
      var front, key := keys[..|keys| - 1], keys[|keys| - 1];
      assert keys == front + [key];
      HomeColours(front);
      var before := ColouredAll(Chart({}, map[]), front);
      ProbeIs(before.used, Home(key));
      assert key !in front;
      assert forall k :: k in front ==> k in keys;
    }
  }

  lemma HomeColoursOfPart(leq: (string, string) -> bool, part: seq<string>, key: string)
    requires Order(leq) && NoRepeats(part) && HomesDiffer(part) && key in part
    ensures key in Colours(leq, part) && Colours(leq, part)[key] == Home(key)
  {
    SortMembers(leq, part);
    SortNoRepeats(leq, part);
    HomeColours(Sort(leq, part));
  }

  /** A series keeps its colour whatever else is absent exactly when no two home slots of the chart collide. */
  lemma AbsenceChangesNothingIff(leq: (string, string) -> bool, keys: seq<string>)
    requires Order(leq) && NoRepeats(keys)
    ensures AbsenceChangesNothing(leq, keys) <==> HomesDiffer(keys)
  {
    if HomesDiffer(keys) {
      forall part: seq<string>, key | NoRepeats(part) && (forall k :: k in part ==> k in keys) && key in part
        ensures key in Colours(leq, part) && key in Colours(leq, keys) &&
          Colours(leq, part)[key] == Colours(leq, keys)[key]
      {
        HomeColoursOfPart(leq, part, key);
        HomeColoursOfPart(leq, keys, key);
      }
    } else {
      var a, b :| a in keys && b in keys && a != b && Home(a) == Home(b);
      CollisionIsSeen(leq, keys, a, b);
    }
  }

  lemma CollisionIsSeen(leq: (string, string) -> bool, keys: seq<string>, a: string, b: string)
    requires Order(leq) && a in keys && b in keys && a != b && Home(a) == Home(b)
    ensures !AbsenceChangesNothing(leq, keys)
  {
    HomeColoursOfPart(leq, [a], a);
    HomeColoursOfPart(leq, [b], b);
    FiveGetDifferentColours(leq, [a, b]);
    SortMembers(leq, [a, b]);
    ColouredAllIs(Sort(leq, [a, b]));
    var colours := Colours(leq, [a, b]);
    assert a in [a, b] && b in [a, b];
    assert colours[a] != colours[b];
    if colours[a] != Home(a) {
      PartsDiffer(leq, keys, [a], [a, b], a);
    } else {
      PartsDiffer(leq, keys, [b], [a, b], b);
    }
  }

  lemma PartsDiffer(leq: (string, string) -> bool, keys: seq<string>, p: seq<string>, q: seq<string>, key: string)
    requires NoRepeats(p) && NoRepeats(q) && (forall k :: k in p ==> k in keys) && (forall k :: k in q ==> k in keys)
    requires key in p && key in q && key in Colours(leq, p) && key in Colours(leq, q)
    requires Colours(leq, p)[key] != Colours(leq, q)[key]
    ensures !AbsenceChangesNothing(leq, keys)
  {
  }

  /** Two keys of one chart for which it fails. */
  lemma AbsenceCanRecolour(leq: (string, string) -> bool)
    requires Order(leq)
    ensures !AbsenceChangesNothing(leq, ["a", "f"])
  {
    assert Number31([]) == 0 && Number31("a") == 97 && Number31("f") == 102;
    assert "a" in ["a", "f"] && "f" in ["a", "f"];
    CollisionIsSeen(leq, ["a", "f"], "a", "f");
  }

  /**
   * Keys that repeat, which the contract of a chart refuses: one listed five times takes the whole palette,
   * and the next may share its colour.
   */
  lemma RepeatsCanShare(leq: (string, string) -> bool, a: string, b: string)
    requires Order(leq) && leq(a, b) && a != b && Home(b) == After(Home(a), 4)
    ensures var colours := Colours(leq, [a, a, a, a, a, b]);
      a in colours && b in colours && colours[a] == colours[b]
  {
    var keys := [a, a, a, a, a, b];
    SortOfSorted(leq, keys);
    var start := Chart({}, map[]);
    assert keys == [a, a, a, a, a] + [b];
    ColouredInTwoParts(start, [a, a, a, a, a], [b]);
    FiveTimes(a);
    var before := ColouredAll(start, [a, a, a, a, a]);
    ProbeIs(before.used, Home(b));
    assert ColouredAll(before, [b]) == Coloured(before, b);
  }

  /** The first `n` slots tried from `home`. */
  function Tried(home: nat, n: nat): set<nat> {
    if n == 0 then {} else Tried(home, n - 1) + {After(home, n - 1)}
  }

  lemma {:induction false} TriedIs(home: nat, n: nat, e: nat)
    requires home < PALETTE && n <= PALETTE && e < PALETTE
    ensures After(home, e) in Tried(home, n) <==> e < n
  {
    if n > 0 { TriedIs(home, n - 1, e); }
  }

  lemma ProbeAfterTried(home: nat, n: nat)
    requires home < PALETTE && n < PALETTE
    ensures Probe(Tried(home, n), home, PALETTE) == After(home, n)
  {
    var d := ProbeTakesFirstFree(Tried(home, n), home, PALETTE);
    TriedIs(home, n, n);
    if d < n { TriedIs(home, n, d); }
  }

  lemma FiveTimes(key: string)
    ensures var chart := ColouredAll(Chart({}, map[]), [key, key, key, key, key]);
      Full(chart.used) && key in chart.colours && chart.colours[key] == After(Home(key), 4)
  {
    assert seq(5, _ => key) == [key, key, key, key, key];
    Repeated(key, 5);
    var chart := ColouredAll(Chart({}, map[]), seq(5, _ => key));
    forall s | 0 <= s < PALETTE ensures s in chart.used {
      var e := EverySlotIsAfter(Home(key), s);
      TriedIs(Home(key), 5, e);
    }
  }

  lemma {:induction false} Repeated(key: string, n: nat)
    requires n <= PALETTE
    ensures var chart := ColouredAll(Chart({}, map[]), seq(n, _ => key));
      chart.used == Tried(Home(key), n) &&
        (n > 0 ==> key in chart.colours && chart.colours[key] == After(Home(key), n - 1))
  {
    if n > 0 {
      Repeated(key, n - 1);
      assert seq(n, _ => key)[..n - 1] == seq(n - 1, _ => key);
      ProbeAfterTried(Home(key), n - 1);
    }
  }

  /** For example these two, again refused by the contract. */
  lemma RepeatedExample(leq: (string, string) -> bool)
    requires Order(leq) && leq("a", "e")
    ensures var colours := Colours(leq, ["a", "a", "a", "a", "a", "e"]);
      "a" in colours && "e" in colours && colours["a"] == colours["e"]
  {
    assert Number31([]) == 0 && Number31("a") == 97 && Number31("e") == 101;
    RepeatsCanShare(leq, "a", "e");
  }

  // ---------------------------------------------------------------------------------------- lines

  datatype Point<T> = Point(index: nat, value: T)

  /** The values that are there, with their places. */
  function Present<T>(values: seq<Option<T>>): seq<Point<T>> {
    if values == [] then []
    else
      var last := |values| - 1;
      Present(values[..last]) + if values[last].Some? then [Point(last, values[last].value)] else []
  }

  function Joined<T>(segments: seq<seq<T>>): seq<T> {
    if segments == [] then [] else segments[0] + Joined(segments[1..])
  }

  lemma {:induction false} JoinedSnoc<T>(segments: seq<seq<T>>, segment: seq<T>)
    ensures Joined(segments + [segment]) == Joined(segments) + segment
    decreases |segments|
  {
    if segments == [] {
      assert Joined([segment]) == segment;
    } else {
      assert (segments + [segment])[1..] == segments[1..] + [segment];
      JoinedSnoc(segments[1..], segment);
    }
  }

  /** Every segment is a stretch without gaps, and between two segments there is one. */
  ghost predicate Split<T>(segments: seq<seq<Point<T>>>) {
    && (forall s :: 0 <= s < |segments| ==> segments[s] != [])
    && (forall s, p :: 0 <= s < |segments| && 0 <= p < |segments[s]| - 1 ==>
          segments[s][p + 1].index == segments[s][p].index + 1)
    && (forall s :: 0 <= s < |segments| - 1 ==>
          segments[s][|segments[s]| - 1].index + 1 < segments[s + 1][0].index)
  }

  /** The last segment, when there is one, ends right before `index` or further back. */
  ghost predicate Ends<T>(segments: seq<seq<Point<T>>>, index: nat, current: bool) {
    && (current ==> segments != [])
    && (forall s :: s == |segments| - 1 && 0 <= s && segments[s] != [] ==>
          if current then segments[s][|segments[s]| - 1].index + 1 == index
          else segments[s][|segments[s]| - 1].index + 1 < index)
  }

  lemma StartSegment<T>(segments: seq<seq<Point<T>>>, point: Point<T>)
    requires Split(segments) && Ends(segments, point.index, false)
    ensures Split(segments + [[point]]) && Ends(segments + [[point]], point.index + 1, true)
  {
  }

  lemma ExtendSegment<T>(segments: seq<seq<Point<T>>>, point: Point<T>)
    requires Split(segments) && Ends(segments, point.index, true)
    ensures Split(Extended(segments, point)) && Ends(Extended(segments, point), point.index + 1, true)
  {
    var longer: seq<seq<Point<T>>> := Extended(segments, point);
    var last := |segments| - 1;
    forall s, p | 0 <= s < |longer| && 0 <= p < |longer[s]| - 1
      ensures longer[s][p + 1].index == longer[s][p].index + 1
    {
      if s == last && p == |segments[s]| - 1 {
        assert longer[s][p + 1] == point && longer[s][p] == segments[s][p];
      } else if s == last {
        assert longer[s][p + 1] == segments[s][p + 1] && longer[s][p] == segments[s][p];
      }
    }
    forall s | 0 <= s < |longer| - 1 ensures longer[s][|longer[s]| - 1].index + 1 < longer[s + 1][0].index {
      assert longer[s] == segments[s] && longer[s + 1][0] == segments[s + 1][0];
    }
  }

  function Extended<T>(segments: seq<seq<T>>, point: T): seq<seq<T>>
    requires segments != []
  {
    segments[..|segments| - 1] + [segments[|segments| - 1] + [point]]
  }

  lemma ExtendedJoined<T>(segments: seq<seq<T>>, point: T)
    requires segments != []
    ensures Joined(Extended(segments, point)) == Joined(segments) + [point]
  {
    var front, last := segments[..|segments| - 1], segments[|segments| - 1];
    JoinedSnoc(front, last);
    JoinedSnoc(front, last + [point]);
    assert segments == front + [last];
  }

  /** What holds once `values` have been gone through. */
  ghost predicate Upto<T>(segments: seq<seq<Point<T>>>, values: seq<Option<T>>, current: bool) {
    Joined(segments) == Present(values) && Split(segments) && Ends(segments, |values|, current)
  }

  lemma GapStep<T>(segments: seq<seq<Point<T>>>, values: seq<Option<T>>, current: bool)
    requires Upto(segments, values, current)
    ensures Upto(segments, values + [None], false)
  {
    assert (values + [None])[..|values|] == values;
  }

  lemma StartStep<T>(segments: seq<seq<Point<T>>>, values: seq<Option<T>>, value: T)
    requires Upto(segments, values, false)
    ensures Upto(segments + [[Point(|values|, value)]], values + [Some(value)], true)
  {
    assert (values + [Some(value)])[..|values|] == values;
    JoinedSnoc(segments, [Point(|values|, value)]);
    StartSegment(segments, Point(|values|, value));
  }

  lemma ExtendStep<T>(segments: seq<seq<Point<T>>>, values: seq<Option<T>>, value: T)
    requires Upto(segments, values, true)
    ensures Upto(Extended(segments, Point(|values|, value)), values + [Some(value)], true)
  {
    assert (values + [Some(value)])[..|values|] == values;
    ExtendSegment(segments, Point(|values|, value));
    ExtendedJoined(segments, Point(|values|, value));
  }

  method LineSegments<T>(values: seq<Option<T>>) returns (segments: seq<seq<Point<T>>>)
    ensures Joined(segments) == Present(values) && Split(segments)
  {
    segments := [];
    var current := false;
    var index := 0;
    while index < |values|
      invariant 0 <= index <= |values|
      invariant Upto(segments, values[..index], current)
    {
      assert values[..index + 1] == values[..index] + [values[index]];
      match values[index] {
        case None =>
          GapStep(segments, values[..index], current);
          current := false;
        case Some(value) =>
          if !current {
            StartStep(segments, values[..index], value);
            segments := segments + [[Point(index, value)]];
            current := true;
          } else {
            ExtendStep(segments, values[..index], value);
            segments := Extended(segments, Point(index, value));
          }
      }
      index := index + 1;
    }
    assert values[..index] == values;
  }

  /** So the segments are settled: there is one way to split a line at its gaps. */
  lemma {:induction false} SplitIsUnique<T>(a: seq<seq<Point<T>>>, b: seq<seq<Point<T>>>)
    requires Split(a) && Split(b) && Joined(a) == Joined(b)
    ensures a == b
    decreases |a|
  {
    if a != [] && b != [] {
      LongerFirstDiffers(a, b);
      LongerFirstDiffers(b, a);
      SameFirst(a, b);
      RestIsSplit(a);
      RestIsSplit(b);
      SplitIsUnique(a[1..], b[1..]);
      assert a == [a[0]] + a[1..] && b == [b[0]] + b[1..];
    }
  }

  lemma RestIsSplit<T>(a: seq<seq<Point<T>>>)
    requires Split(a) && a != []
    ensures Split(a[1..])
  {
  }

  lemma SameFirst<T>(a: seq<seq<T>>, b: seq<seq<T>>)
    requires a != [] && b != [] && |a[0]| == |b[0]| && Joined(a) == Joined(b)
    ensures a[0] == b[0] && Joined(a[1..]) == Joined(b[1..])
  {
    assert a[0] == Joined(a)[..|a[0]|] == b[0];
    assert Joined(a[1..]) == Joined(a)[|a[0]|..] == Joined(b[1..]);
  }

  lemma LongerFirstDiffers<T>(a: seq<seq<Point<T>>>, b: seq<seq<Point<T>>>)
    requires Split(a) && Split(b) && a != [] && b != []
    ensures |a[0]| > |b[0]| ==> Joined(a) != Joined(b)
  {
    var n := |b[0]|;
    if |a[0]| > n && |b| > 1 {
      assert Joined(b)[n] == Joined(b[1..])[0] == b[1][0];
      assert Joined(b)[n - 1] == b[0][n - 1];
      assert a[0][n - 1 + 1].index == a[0][n - 1].index + 1;
    }
  }
}
