// Sorting by a key and dropping adjacent repeats, as `sort_by_key` followed by `dedup`.

module Sorting {
  // `before` orders strictly and no two different values tie.
  ghost predicate Orders<T(!new)>(before: (T, T) -> bool) {
    && (forall a, b, c :: before(a, b) && before(b, c) ==> before(a, c))
    && (forall a :: !before(a, a))
    && (forall a, b :: before(a, b) || before(b, a) || a == b)
  }

  ghost predicate Asymmetric<T(!new)>(before: (T, T) -> bool) {
    forall a, b :: before(a, b) ==> !before(b, a)
  }

  predicate InOrder<T>(before: (T, T) -> bool, s: seq<T>) {
    |s| < 2 || (!before(s[1], s[0]) && InOrder(before, s[1..]))
  }

  predicate StrictlyInOrder<T>(before: (T, T) -> bool, s: seq<T>) {
    |s| < 2 || (before(s[0], s[1]) && StrictlyInOrder(before, s[1..]))
  }

  function Insert<T>(before: (T, T) -> bool, t: T, s: seq<T>): seq<T> {
    if s == [] || !before(s[0], t) then [t] + s else [s[0]] + Insert(before, t, s[1..])
  }

  function Sort<T>(before: (T, T) -> bool, s: seq<T>): seq<T> {
    if s == [] then [] else Insert(before, s[0], Sort(before, s[1..]))
  }

  function Dedup<T(==)>(s: seq<T>): seq<T> {
    if |s| < 2 then s
    else if s[0] == s[1] then Dedup(s[1..])
    else [s[0]] + Dedup(s[1..])
  }

  lemma {:induction false} InsertHolds<T>(before: (T, T) -> bool, t: T, s: seq<T>, u: T)
    ensures u in Insert(before, t, s) <==> u == t || u in s
  {
    if s != [] && before(s[0], t) {
      InsertHolds(before, t, s[1..], u);
      assert s == [s[0]] + s[1..];
    }
  }

  lemma {:induction false} SortHolds<T>(before: (T, T) -> bool, s: seq<T>, u: T)
    ensures u in Sort(before, s) <==> u in s
  {
    if s != [] {
      SortHolds(before, s[1..], u);
      InsertHolds(before, s[0], Sort(before, s[1..]), u);
    }
  }

  lemma {:induction false} InsertInOrder<T(!new)>(before: (T, T) -> bool, t: T, s: seq<T>)
    requires Asymmetric(before) && InOrder(before, s)
    ensures InOrder(before, Insert(before, t, s))
    ensures |Insert(before, t, s)| == |s| + 1
  {
    if s != [] && before(s[0], t) {
      InsertInOrder(before, t, s[1..]);
      var rest := Insert(before, t, s[1..]);
      assert ([s[0]] + rest)[1..] == rest;
      assert rest[0] == t || (|s| > 1 && rest[0] == s[1]);
    } else {
      assert ([t] + s)[1..] == s;
    }
  }

  lemma {:induction false} SortInOrder<T(!new)>(before: (T, T) -> bool, s: seq<T>)
    requires Asymmetric(before)
    ensures InOrder(before, Sort(before, s))
    ensures |Sort(before, s)| == |s|
  {
    if s != [] {
      SortInOrder(before, s[1..]);
      InsertInOrder(before, s[0], Sort(before, s[1..]));
    }
  }

  lemma {:induction false} DedupHolds<T>(s: seq<T>, u: T)
    ensures u in Dedup(s) <==> u in s
    ensures |s| > 0 ==> |Dedup(s)| > 0 && Dedup(s)[0] == s[0]
  {
    if |s| >= 2 {
      DedupHolds(s[1..], u);
      assert s == [s[0]] + s[1..];
    }
  }

  lemma {:induction false} DedupIsStrict<T(!new)>(before: (T, T) -> bool, s: seq<T>)
    requires Orders(before) && InOrder(before, s)
    ensures StrictlyInOrder(before, Dedup(s))
  {
    if |s| >= 2 {
      DedupIsStrict(before, s[1..]);
      DedupHolds(s[1..], s[1]);
      assert ([s[0]] + Dedup(s[1..]))[1..] == Dedup(s[1..]);
      assert before(s[0], s[1]) || s[0] == s[1];
    }
  }

  ghost predicate Transitive<T(!new)>(before: (T, T) -> bool) {
    forall a, b, c :: before(a, b) && before(b, c) ==> before(a, c)
  }

  lemma {:induction false} FirstIsBefore<T(!new)>(before: (T, T) -> bool, s: seq<T>, j: nat)
    requires Transitive(before) && StrictlyInOrder(before, s) && 0 < j < |s|
    ensures before(s[0], s[j])
  {
    if j > 1 { FirstIsBefore(before, s[1..], j - 1); }
  }

  // In strict order every value occurs once: as many places as values.
  lemma {:induction false} StrictMeansDistinct<T(!new)>(before: (T, T) -> bool, s: seq<T>)
    requires Orders(before) && StrictlyInOrder(before, s)
    ensures |s| == |set x | x in s|
  {
    if s != [] {
      StrictMeansDistinct(before, s[1..]);
      forall j | 0 <= j < |s[1..]| ensures s[1..][j] != s[0] { FirstIsBefore(before, s, j + 1); }
      assert (set x | x in s) == {s[0]} + (set x | x in s[1..]);
    } else {
      assert (set x | x in s) == {};
    }
  }

  // Sorting and dropping repeats: in strict order, each value exactly once.
  lemma SortDedup<T(!new)>(before: (T, T) -> bool, s: seq<T>)
    requires Orders(before)
    ensures var r := Dedup(Sort(before, s));
      StrictlyInOrder(before, r) && (forall u :: u in r <==> u in s) && |r| == |set u | u in s|
  {
    SortInOrder(before, s);
    DedupIsStrict(before, Sort(before, s));
    var r := Dedup(Sort(before, s));
    forall u
      ensures u in r <==> u in s
    {
      SortHolds(before, s, u);
      DedupHolds(Sort(before, s), u);
    }
    StrictMeansDistinct(before, r);
    assert (set u | u in r) == (set u | u in s);
  }

  // Keys without ties sort into strict order.
  lemma {:induction false} InsertStrict<T(!new)>(before: (T, T) -> bool, t: T, s: seq<T>)
    requires Asymmetric(before) && StrictlyInOrder(before, s)
    requires forall x :: x in s ==> before(x, t) || before(t, x)
    ensures StrictlyInOrder(before, Insert(before, t, s))
  {
    if s != [] && before(s[0], t) {
      InsertStrict(before, t, s[1..]);
      var rest := Insert(before, t, s[1..]);
      assert ([s[0]] + rest)[1..] == rest;
      assert rest[0] == t || (|s| > 1 && rest[0] == s[1]);
    } else {
      assert ([t] + s)[1..] == s;
    }
  }

  lemma {:induction false} SortStrict<T(!new)>(before: (T, T) -> bool, s: seq<T>)
    requires Asymmetric(before)
    requires forall j, k :: 0 <= j < k < |s| ==> before(s[j], s[k]) || before(s[k], s[j])
    ensures StrictlyInOrder(before, Sort(before, s))
  {
    if s != [] {
      SortStrict(before, s[1..]);
      forall x | x in Sort(before, s[1..]) ensures before(x, s[0]) || before(s[0], x) {
        SortHolds(before, s[1..], x);
        var k :| 0 <= k < |s[1..]| && s[1..][k] == x;
        assert s[k + 1] == x;
      }
      InsertStrict(before, s[0], Sort(before, s[1..]));
    }
  }

  lemma {:induction false} StrictPairs<T(!new)>(before: (T, T) -> bool, s: seq<T>, j: nat, k: nat)
    requires Transitive(before) && StrictlyInOrder(before, s) && j < k < |s|
    ensures before(s[j], s[k])
  {
    if j == 0 { FirstIsBefore(before, s, k); } else { StrictPairs(before, s[1..], j - 1, k - 1); }
  }
}
