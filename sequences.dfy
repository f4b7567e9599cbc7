/** `Array.prototype.filter` and `Array.prototype.find` on sequences, with
    the facts the components rely on: a filter keeps exactly the elements
    that pass, in their order; a find returns the first that passes. */
module Sequences {
  import opened JsValues

  /** `s.filter(p)`. */
  function Filter<T>(s: seq<T>, p: T -> bool): (r: seq<T>)
    ensures |r| <= |s|
  {
    if |s| == 0 then [] else (if p(s[0]) then [s[0]] else []) + Filter(s[1..], p)
  }

  /** A filter keeps only elements of its input that pass, and keeps
      every element that passes, as many times as it occurs. */
  lemma {:induction false} FilterKeepsExactlyPassing<T>(s: seq<T>, p: T -> bool)
    ensures forall i :: 0 <= i < |Filter(s, p)| ==> Filter(s, p)[i] in s && p(Filter(s, p)[i])
    ensures forall i :: 0 <= i < |s| && p(s[i]) ==> s[i] in Filter(s, p)
    ensures forall x :: multiset(Filter(s, p))[x] == if p(x) then multiset(s)[x] else 0
  {
    FilterCounts(s, p);
    if |s| > 0 {
      FilterKeepsExactlyPassing(s[1..], p);
      var rest := Filter(s[1..], p);
      var r := Filter(s, p);
      forall i | 0 <= i < |r| ensures r[i] in s && p(r[i]) {
        if p(s[0]) && i == 0 {
        } else {
          var k := if p(s[0]) then i - 1 else i;
          assert r[i] == rest[k];
          assert rest[k] in s[1..];
        }
      }
      forall i | 0 <= i < |s| && p(s[i]) ensures s[i] in r {
        if i > 0 {
          assert s[i] == s[1..][i - 1];
        }
      }
    }
  }

  /** A filter keeps each passing value as many times as it occurs, and
      no other value. */
  lemma {:induction false} FilterCounts<T>(s: seq<T>, p: T -> bool)
    ensures forall x :: multiset(Filter(s, p))[x] == if p(x) then multiset(s)[x] else 0
  {
    if |s| > 0 {
      FilterCounts(s[1..], p);
      assert s == [s[0]] + s[1..];
    }
  }

  /** `a` is `b` with some elements deleted. */
  ghost predicate IsSubsequence<T>(a: seq<T>, b: seq<T>)
    decreases |b|
  {
    if |a| == 0 then true
    else if |b| == 0 then false
    else if a[0] == b[0] then IsSubsequence(a[1..], b[1..])
    else IsSubsequence(a, b[1..])
  }

  /** What a filter returns is a subsequence of its input. */
  lemma {:induction false} FilterIsSubsequence<T>(s: seq<T>, p: T -> bool)
    ensures IsSubsequence(Filter(s, p), s)
  {
    if |s| > 0 {
      FilterIsSubsequence(s[1..], p);
      var r := Filter(s, p);
      if p(s[0]) {
        assert r[0] == s[0] && r[1..] == Filter(s[1..], p);
      } else {
        assert r == Filter(s[1..], p);
        FilterKeepsExactlyPassing(s[1..], p);
        assert |r| > 0 ==> r[0] != s[0];
      }
    }
  }

  /** The index `s.find(p)` stops at, searching from `from`: the first
      element at or after `from` that passes `p`. */
  function FindIndex<T>(s: seq<T>, p: T -> bool, from: nat): (r: Option<nat>)
    requires from <= |s|
    ensures r.Some? ==> from <= r.value < |s| && p(s[r.value])
    ensures r.Some? ==> forall j :: from <= j < r.value ==> !p(s[j])
    ensures r.None? ==> forall j :: from <= j < |s| ==> !p(s[j])
    decreases |s| - from
  {
    if from == |s| then None
    else if p(s[from]) then Some(from)
    else FindIndex(s, p, from + 1)
  }

  /** `s.find(p)`: the first element that passes `p`, if any. */
  function Find<T>(s: seq<T>, p: T -> bool): Option<T>
  {
    match FindIndex(s, p, 0)
    case None => None
    case Some(i) => Some(s[i])
  }

  /** What `find` returns is the first element that passes, and it
      returns nothing exactly when no element passes. */
  lemma FindIsFirstMatch<T>(s: seq<T>, p: T -> bool)
    ensures Find(s, p).None? <==> forall j :: 0 <= j < |s| ==> !p(s[j])
    ensures Find(s, p).Some? ==>
      exists i :: 0 <= i < |s| && s[i] == Find(s, p).value && p(s[i]) && forall j :: 0 <= j < i ==> !p(s[j])
  {
  }

  /** The values of the present entries of `xs`, in order. */
  function Somes<T>(xs: seq<Option<T>>): seq<T>
  {
    if |xs| == 0 then []
    else Somes(xs[..|xs| - 1]) + (if xs[|xs| - 1].Some? then [xs[|xs| - 1].value] else [])
  }

  /** The positions of the present entries of `xs`, in order. */
  function SomePositions<T>(xs: seq<Option<T>>): seq<nat>
  {
    if |xs| == 0 then []
    else SomePositions(xs[..|xs| - 1]) + (if xs[|xs| - 1].Some? then [|xs| - 1] else [])
  }

  /** Entries that are all absent have no value. */
  lemma {:induction false} SomesOfNones<T>(xs: seq<Option<T>>)
    requires forall i :: 0 <= i < |xs| ==> xs[i].None?
    ensures Somes(xs) == []
  {
    if |xs| > 0 {
      SomesOfNones(xs[..|xs| - 1]);
    }
  }

  /** Appending an entry appends its value when it is present. */
  lemma SomesAppend<T>(xs: seq<Option<T>>, x: Option<T>)
    ensures Somes(xs + [x]) == Somes(xs) + (if x.Some? then [x.value] else [])
  {
    assert (xs + [x])[..|xs|] == xs;
  }

  /** The `k`-th value is the entry at the `k`-th present position: there
      is one value per present entry, and the values keep their order. */
  lemma {:induction false} SomesAt<T>(xs: seq<Option<T>>)
    ensures |Somes(xs)| == |SomePositions(xs)| <= |xs|
    ensures forall k :: 0 <= k < |Somes(xs)| ==>
              SomePositions(xs)[k] < |xs| && xs[SomePositions(xs)[k]] == Some(Somes(xs)[k])
  {
    if |xs| > 0 {
      var n := |xs| - 1;
      SomesAt(xs[..n]);
      var v0, p0 := Somes(xs[..n]), SomePositions(xs[..n]);
      forall k | 0 <= k < |Somes(xs)| ensures SomePositions(xs)[k] < |xs| && xs[SomePositions(xs)[k]] == Some(Somes(xs)[k]) {
        if k < |v0| {
          assert Somes(xs)[k] == v0[k] && SomePositions(xs)[k] == p0[k];
          assert xs[p0[k]] == xs[..n][p0[k]];
        }
      }
    }
  }

  /** The present positions increase, so the values follow the order of
      the entries. */
  lemma {:induction false} SomePositionsIncrease<T>(xs: seq<Option<T>>)
    ensures forall k, l :: 0 <= k < l < |SomePositions(xs)| ==> SomePositions(xs)[k] < SomePositions(xs)[l]
    ensures forall k :: 0 <= k < |SomePositions(xs)| ==> SomePositions(xs)[k] < |xs|
  {
    if |xs| > 0 {
      var n := |xs| - 1;
      SomePositionsIncrease(xs[..n]);
      var p0 := SomePositions(xs[..n]);
      assert forall k :: 0 <= k < |p0| ==> SomePositions(xs)[k] == p0[k];
    }
  }

  /** Every present entry's position is listed. */
  lemma {:induction false} SomePositionsComplete<T>(xs: seq<Option<T>>, i: nat)
    requires i < |xs| && xs[i].Some?
    ensures i in SomePositions(xs)
  {
    var n := |xs| - 1;
    if i < n {
      assert xs[i] == xs[..n][i];
      SomePositionsComplete(xs[..n], i);
    }
  }
}
