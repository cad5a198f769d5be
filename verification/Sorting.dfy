/** Sorting as the database and the language runtime do it: a stable sort by a total order. */
module Sorting {

  /** Total and transitive, as a comparison must be. */
  ghost predicate Order<T(!new)>(leq: (T, T) -> bool) {
    && (forall x, y :: leq(x, y) || leq(y, x))
    && (forall x, y, z :: leq(x, y) && leq(y, z) ==> leq(x, z))
  }

  ghost predicate Antisymmetric<T(!new)>(leq: (T, T) -> bool) {
    forall x, y :: leq(x, y) && leq(y, x) ==> x == y
  }

  ghost predicate Sorted<T>(leq: (T, T) -> bool, s: seq<T>) {
    forall i, j :: 0 <= i < j < |s| ==> leq(s[i], s[j])
  }

  function Insert<T>(leq: (T, T) -> bool, x: T, s: seq<T>): seq<T> {
    if s == [] || leq(x, s[0]) then [x] + s else [s[0]] + Insert(leq, x, s[1..])
  }

  function Sort<T>(leq: (T, T) -> bool, s: seq<T>): seq<T> {
    if s == [] then [] else Insert(leq, s[0], Sort(leq, s[1..]))
  }

  lemma {:induction false} InsertIs<T(!new)>(leq: (T, T) -> bool, x: T, s: seq<T>)
    requires Order(leq) && Sorted(leq, s)
    ensures multiset(Insert(leq, x, s)) == multiset(s) + multiset{x}
    ensures Sorted(leq, Insert(leq, x, s))
  {
    if s == [] {
    } else if leq(x, s[0]) {
      forall i | 0 <= i < |s| ensures leq(x, s[i]) {}
    } else {
      InsertIs(leq, x, s[1..]);
      var rest := Insert(leq, x, s[1..]);
      assert s == [s[0]] + s[1..];
      forall i | 0 <= i < |rest| ensures leq(s[0], rest[i]) {
        assert rest[i] in multiset(rest);
        assert rest[i] == x || rest[i] in s[1..];
      }
    }
  }

  /** The same elements, in order. */
  lemma {:induction false} SortIs<T(!new)>(leq: (T, T) -> bool, s: seq<T>)
    requires Order(leq)
    ensures multiset(Sort(leq, s)) == multiset(s) && Sorted(leq, Sort(leq, s))
  {
    if s != [] {
      SortIs(leq, s[1..]);
      InsertIs(leq, s[0], Sort(leq, s[1..]));
      assert s == [s[0]] + s[1..];
    }
  }

  lemma HeadIsLeast<T(!new)>(leq: (T, T) -> bool, s: seq<T>, x: T)
    requires Order(leq) && Sorted(leq, s) && x in s
    ensures leq(s[0], x)
  {
    var i :| 0 <= i < |s| && s[i] == x;
    assert i == 0 || leq(s[0], s[i]);
    assert leq(x, x);
  }

  lemma HeadsAgree<T(!new)>(leq: (T, T) -> bool, s: seq<T>, t: seq<T>)
    requires Order(leq) && Antisymmetric(leq) && Sorted(leq, s) && Sorted(leq, t)
    requires s != [] && t != [] && t[0] in s && s[0] in t
    ensures s[0] == t[0]
  {
    HeadIsLeast(leq, s, t[0]);
    HeadIsLeast(leq, t, s[0]);
  }

  lemma TailsAgree<T>(s: seq<T>, t: seq<T>)
    requires s != [] && t != [] && s[0] == t[0] && multiset(s) == multiset(t)
    ensures multiset(s[1..]) == multiset(t[1..])
  {
    assert s == [s[0]] + s[1..] && t == [t[0]] + t[1..];
    assert multiset(s[1..]) == multiset(s) - multiset{s[0]};
  }

  /** There is only one way to be sorted. */
  lemma {:induction false} SortedIsUnique<T(!new)>(leq: (T, T) -> bool, s: seq<T>, t: seq<T>)
    requires Order(leq) && Antisymmetric(leq) && Sorted(leq, s) && Sorted(leq, t) && multiset(s) == multiset(t)
    ensures s == t
    decreases |s|
  {
    assert |s| == |multiset(s)| == |multiset(t)| == |t|;
    if s != [] {
      assert s[0] in multiset(t) && t[0] in multiset(s);
      HeadsAgree(leq, s, t);
      TailsAgree(s, t);
      SortedIsUnique(leq, s[1..], t[1..]);
      assert s == [s[0]] + s[1..] && t == [t[0]] + t[1..];
    }
  }

  /** What is in order already is left as it is. */
  lemma {:induction false} SortOfSorted<T(!new)>(leq: (T, T) -> bool, s: seq<T>)
    requires Order(leq) && Sorted(leq, s)
    ensures Sort(leq, s) == s
  {
    if s != [] {
      SortOfSorted(leq, s[1..]);
      assert s == [s[0]] + s[1..];
      assert |s| > 1 ==> leq(s[0], s[1]);
    }
  }

  ghost predicate NoRepeats<T(!new)>(s: seq<T>) {
    forall i, j :: 0 <= i < j < |s| ==> s[i] != s[j]
  }

  lemma Twice<T>(s: seq<T>, i: nat, j: nat)
    requires i < j < |s| && s[i] == s[j]
    ensures multiset(s)[s[i]] >= 2
  {
    assert s == s[..j] + s[j..];
    assert s[i] in s[..j] && s[j] in s[j..];
  }

  lemma {:induction false} Once<T(!new)>(s: seq<T>, x: T)
    requires NoRepeats(s)
    ensures multiset(s)[x] <= 1
    decreases |s|
  {
    if s != [] {
      var front, last := s[..|s| - 1], s[|s| - 1];
      assert s == front + [last];
      Once(front, x);
      assert last !in front;
      assert multiset(front)[last] == 0;
    }
  }

  lemma SortNoRepeats<T(!new)>(leq: (T, T) -> bool, s: seq<T>)
    requires Order(leq) && NoRepeats(s)
    ensures NoRepeats(Sort(leq, s))
  {
    SortIs(leq, s);
    var sorted := Sort(leq, s);
    forall i, j | 0 <= i < j < |sorted| ensures sorted[i] != sorted[j] {
      if sorted[i] == sorted[j] {
        Twice(sorted, i, j);
        Once(s, sorted[i]);
      }
    }
  }

  lemma SortMembers<T(!new)>(leq: (T, T) -> bool, s: seq<T>)
    requires Order(leq)
    ensures |Sort(leq, s)| == |s| && forall x :: x in Sort(leq, s) <==> x in s
  {
    SortIs(leq, s);
    assert |multiset(Sort(leq, s))| == |multiset(s)|;
    forall x ensures x in Sort(leq, s) <==> x in s {
      assert x in Sort(leq, s) <==> x in multiset(Sort(leq, s));
      assert x in s <==> x in multiset(s);
    }
  }
}

/** Text compared character by character. */
module TextOrder {
  import opened Sorting

  predicate TextLess(a: string, b: string) {
    if a == [] then b != []
    else b != [] && (a[0] < b[0] || (a[0] == b[0] && TextLess(a[1..], b[1..])))
  }

  predicate TextLeq(a: string, b: string) {
    a == b || TextLess(a, b)
  }

  /** At the first difference `a` has the smaller character, or has ended. */
  ghost predicate DifferAt(a: string, b: string, k: int) {
    && 0 <= k <= |a| && k < |b| && a[..k] == b[..k] && (k == |a| || a[k] < b[k])
  }

  lemma SharedHead(a: string, b: string, k: int)
    requires DifferAt(a, b, k)
    ensures k == 0 || (a != [] && b != [] && a[0] == b[0])
  {
    if k > 0 { assert a[0] == a[..k][0] && b[0] == b[..k][0]; }
  }

  lemma {:induction false} TextLessIff(a: string, b: string)
    ensures TextLess(a, b) <==> exists k :: DifferAt(a, b, k)
    decreases |a|
  {
    if a != [] && b != [] && a[0] == b[0] {
      TextLessIff(a[1..], b[1..]);
      if k :| DifferAt(a[1..], b[1..], k) {
        assert a[..k + 1] == [a[0]] + a[1..][..k] && b[..k + 1] == [b[0]] + b[1..][..k];
        assert DifferAt(a, b, k + 1);
      }
      if k :| DifferAt(a, b, k) {
        assert k > 0;
        assert a[1..][..k - 1] == a[..k][1..] && b[1..][..k - 1] == b[..k][1..];
        assert DifferAt(a[1..], b[1..], k - 1);
      }
    } else {
      assert TextLess(a, b) ==> DifferAt(a, b, 0);
      forall k | DifferAt(a, b, k) ensures k == 0 || (a != [] && b != [] && a[0] == b[0]) { SharedHead(a, b, k); }
    }
  }

  lemma {:induction false} TextLessTrichotomy(a: string, b: string)
    ensures TextLess(a, b) || TextLess(b, a) || a == b
    ensures !(TextLess(a, b) && TextLess(b, a)) && !TextLess(a, a)
    decreases |a|
  {
    if a != [] {
      TextLessTrichotomy(a[1..], a[1..]);
      if b != [] {
        TextLessTrichotomy(a[1..], b[1..]);
        assert a == [a[0]] + a[1..] && b == [b[0]] + b[1..];
      }
    }
  }

  lemma {:induction false} TextLessTransitive(a: string, b: string, c: string)
    requires TextLess(a, b) && TextLess(b, c)
    ensures TextLess(a, c)
    decreases |a|
  {
    if a != [] && a[0] == b[0] && b[0] == c[0] { TextLessTransitive(a[1..], b[1..], c[1..]); }
  }

  lemma TextLeqIsOrder()
    ensures Order(TextLeq) && Antisymmetric(TextLeq)
  {
    forall x: string, y: string ensures TextLeq(x, y) || TextLeq(y, x) { TextLessTrichotomy(x, y); }
    forall x: string, y: string ensures TextLeq(x, y) && TextLeq(y, x) ==> x == y { TextLessTrichotomy(x, y); }
    forall x: string, y: string, z: string | TextLeq(x, y) && TextLeq(y, z) ensures TextLeq(x, z) {
      if x != y && y != z { TextLessTransitive(x, y, z); }
    }
  }
}
