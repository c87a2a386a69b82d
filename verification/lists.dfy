/** Filtering and quantifying over sequences, for any predicate on the elements. */
module Lists {
  import opened Wrappers

  predicate Any<T>(s: seq<T>, p: T -> bool) {
    exists i :: 0 <= i < |s| && p(s[i])
  }

  predicate Every<T>(s: seq<T>, p: T -> bool) {
    forall i :: 0 <= i < |s| ==> p(s[i])
  }

  /** The elements that `drop` does not reject, in order. */
  function Without<T>(s: seq<T>, drop: T -> bool): (r: seq<T>)
    ensures |r| <= |s|
  {
    if s == [] then []
    else if drop(s[0]) then Without(s[1..], drop)
    else [s[0]] + Without(s[1..], drop)
  }

  lemma {:induction false} WithoutNone<T>(s: seq<T>, drop: T -> bool)
    ensures !Any(Without(s, drop), drop)
  {
    if s != [] {
      WithoutNone(s[1..], drop);
      var rest := Without(s[1..], drop);
      assert forall i :: 0 <= i < |rest| ==> !drop(rest[i]);
    }
  }

  lemma {:induction false} WithoutKeeps<T>(s: seq<T>, drop: T -> bool, p: T -> bool)
    requires Every(s, p)
    ensures Every(Without(s, drop), p)
  {
    if s != [] {
      assert forall i :: 0 <= i < |s[1..]| ==> s[1..][i] == s[i + 1];
      WithoutKeeps(s[1..], drop, p);
    }
  }

  lemma {:induction false} WithoutAppend<T>(a: seq<T>, b: seq<T>, drop: T -> bool)
    ensures Without(a + b, drop) == Without(a, drop) + Without(b, drop)
  {
    if a == [] {
      assert a + b == b;
    } else {
      assert (a + b)[1..] == a[1..] + b;
      WithoutAppend(a[1..], b, drop);
    }
  }

  /** An element that is dropped anyway may just as well be missing. */
  lemma {:induction false} WithoutSkipped<T>(a: seq<T>, x: T, b: seq<T>, drop: T -> bool)
    requires drop(x)
    ensures Without(a + [x] + b, drop) == Without(a + b, drop)
  {
    if a == [] {
      assert (a + [x] + b)[1..] == a + b;
    } else {
      assert (a + [x] + b)[1..] == a[1..] + [x] + b && (a + b)[1..] == a[1..] + b;
      WithoutSkipped(a[1..], x, b, drop);
    }
  }

  lemma {:induction false} WithoutAll<T>(s: seq<T>, drop: T -> bool)
    requires !Any(s, drop)
    ensures Without(s, drop) == s
  {
    if s != [] {
      assert forall i :: 0 <= i < |s[1..]| ==> s[1..][i] == s[i + 1];
      WithoutAll(s[1..], drop);
    }
  }

  /** The last position whose element satisfies `p`. */
  function LastIndex<T>(s: seq<T>, p: T -> bool): (r: Option<nat>)
    ensures r.Some? ==> r.value < |s| && p(s[r.value]) && forall k :: r.value < k < |s| ==> !p(s[k])
    ensures r.None? ==> !Any(s, p)
  {
    if s == [] then None
    else if p(s[|s| - 1]) then Some(|s| - 1)
    else LastIndex(s[..|s| - 1], p)
  }

  /** The first position whose element satisfies `p`. */
  function FirstIndex<T>(s: seq<T>, p: T -> bool): (r: Option<nat>)
    ensures r.Some? ==> r.value < |s| && p(s[r.value]) && forall k :: 0 <= k < r.value ==> !p(s[k])
    ensures r.None? ==> !Any(s, p)
  {
    if s == [] then None
    else if p(s[0]) then Some(0)
    else
      var rest := FirstIndex(s[1..], p);
      if rest.None? then None else Some(rest.value + 1)
  }

  /** Dropping other elements leaves those that `p` selects, in order. */
  lemma {:induction false} SelectionKept<T>(s: seq<T>, drop: T -> bool, other: T -> bool)
    requires forall x :: x in s && drop(x) ==> other(x)
    ensures Without(Without(s, drop), other) == Without(s, other)
  {
    if s != [] {
      SelectionKept(s[1..], drop, other);
    }
  }

  lemma {:induction false} WithoutMembers<T>(s: seq<T>, drop: T -> bool)
    ensures forall x :: x in Without(s, drop) <==> x in s && !drop(x)
  {
    if s != [] {
      WithoutMembers(s[1..], drop);
    }
  }
}
