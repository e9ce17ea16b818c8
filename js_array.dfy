/**
 * The JavaScript array methods the slip pipeline relies on:
 * `Array.prototype.filter` and `Array.prototype.find` (as the index it stops at).
 */
module JsArray {
  import opened Wrappers

  /** `s.filter(p)`. */
  function Filter<T>(s: seq<T>, p: T -> bool): (r: seq<T>)
    ensures |r| <= |s|
    ensures forall k :: 0 <= k < |r| ==> p(r[k])
  {
    if s == [] then []
    else Filter(s[..|s| - 1], p) + (if p(s[|s| - 1]) then [s[|s| - 1]] else [])
  }

  /** The positions in `s` of the elements that `s.filter(p)` keeps, in order. */
  function FilterIndices<T>(s: seq<T>, p: T -> bool): seq<nat>
  {
    if s == [] then []
    else FilterIndices(s[..|s| - 1], p) + (if p(s[|s| - 1]) then [|s| - 1] else [])
  }

  /**
   * `s.filter(p)` is the order-preserving subsequence of `s` made of exactly
   * the elements that satisfy `p`: its k-th element sits at the k-th of a
   * strictly increasing list of positions, and a position is in that list
   * exactly when its element satisfies `p`.
   */
  lemma {:induction false} FilterByIndices<T>(s: seq<T>, p: T -> bool)
    ensures var r, idx := Filter(s, p), FilterIndices(s, p);
            && |idx| == |r|
            && (forall k :: 0 <= k < |idx| ==> idx[k] < |s| && r[k] == s[idx[k]])
            && (forall k, l :: 0 <= k < l < |idx| ==> idx[k] < idx[l])
            && (forall i :: 0 <= i < |s| ==> (p(s[i]) <==> i in idx))
  {
    if s != [] {
      var init := s[..|s| - 1];
      FilterByIndices(init, p);
      var idx := FilterIndices(s, p);
      var idx0 := FilterIndices(init, p);
      assert forall i :: 0 <= i < |init| ==> init[i] == s[i];
      forall i | 0 <= i < |s| ensures p(s[i]) <==> i in idx {
        if i < |s| - 1 {
          assert i in idx <==> i in idx0;
        }
      }
    }
  }

  /** Filtering a sequence with one more element at its end. */
  lemma FilterSnoc<T>(s: seq<T>, x: T, p: T -> bool)
    ensures Filter(s + [x], p) == Filter(s, p) + (if p(x) then [x] else [])
  {
    assert (s + [x])[..|s + [x]| - 1] == s;
  }

  /** `s.map(f)`. */
  function Map<T, U>(s: seq<T>, f: T -> U): seq<U> {
    seq(|s|, i requires 0 <= i < |s| => f(s[i]))
  }

  /** Mapping and then filtering a prefix of `s` one element longer. */
  lemma FilterMapStep<T, U>(s: seq<T>, f: T -> U, p: U -> bool, i: nat)
    requires i < |s|
    ensures Filter(Map(s[..i + 1], f), p) == Filter(Map(s[..i], f), p) + (if p(f(s[i])) then [f(s[i])] else [])
  {
    assert Map(s[..i + 1], f) == Map(s[..i], f) + [f(s[i])];
    FilterSnoc(Map(s[..i], f), f(s[i]), p);
  }

  /** When no element passes, the filter keeps nothing. */
  lemma {:induction false} FilterNone<T>(s: seq<T>, p: T -> bool)
    requires forall i :: 0 <= i < |s| ==> !p(s[i])
    ensures Filter(s, p) == []
  {
    if s != [] {
      FilterNone(s[..|s| - 1], p);
    }
  }

  /** Two tests that agree on every element of `s` filter it alike. */
  lemma {:induction false} FilterCongruence<T>(s: seq<T>, p: T -> bool, q: T -> bool)
    requires forall i :: 0 <= i < |s| ==> p(s[i]) == q(s[i])
    ensures Filter(s, p) == Filter(s, q)
  {
    if s != [] {
      FilterCongruence(s[..|s| - 1], p, q);
    }
  }

  /** The index at which `s.find(p)` stops: the first element that satisfies `p`. */
  function FindIndex<T>(s: seq<T>, p: T -> bool): (r: Option<nat>)
    ensures r.Some? ==> r.value < |s| && p(s[r.value])
    ensures r.Some? ==> forall j :: 0 <= j < r.value ==> !p(s[j])
    ensures r.None? <==> forall j :: 0 <= j < |s| ==> !p(s[j])
  {
    if s == [] then None
    else if p(s[0]) then Some(0)
    else match FindIndex(s[1..], p)
      case None => None
      case Some(k) => Some(k + 1)
  }

  /** `find` stops at `i` when `p` fails before it and holds there. */
  lemma FindIndexAt<T>(s: seq<T>, p: T -> bool, i: nat)
    requires i < |s| && p(s[i])
    requires forall j :: 0 <= j < i ==> !p(s[j])
    ensures FindIndex(s, p) == Some(i)
  {
    var r := FindIndex(s, p);
    assert r.Some?;
    assert !(r.value < i) && !(i < r.value);
  }

  /**
   * A `for ... of` loop over `s` from position `from` that stops (`break`) at
   * the first element on which `f` finds something, with what it found there.
   */
  function FirstFound<T, U>(s: seq<T>, f: T -> Option<U>, from: nat): (r: Option<(nat, U)>)
    requires from <= |s|
    decreases |s| - from
    ensures r.Some? ==> from <= r.value.0 < |s| && f(s[r.value.0]) == Some(r.value.1)
    ensures r.Some? ==> forall i :: from <= i < r.value.0 ==> f(s[i]).None?
    ensures r.None? <==> forall i :: from <= i < |s| ==> f(s[i]).None?
  {
    if from == |s| then None
    else
      var found := f(s[from]);
      if found.Some? then Some((from, found.value))
      else FirstFound(s, f, from + 1)
  }

  /** The loop stops at `i` when nothing is found before it and something is found there. */
  lemma FirstFoundAt<T, U>(s: seq<T>, f: T -> Option<U>, i: nat, u: U)
    requires i < |s| && f(s[i]) == Some(u)
    requires forall r :: 0 <= r < i ==> f(s[r]).None?
    ensures FirstFound(s, f, 0) == Some((i, u))
  {
    var r := FirstFound(s, f, 0);
    assert r.Some?;
    assert !(r.value.0 < i) && !(i < r.value.0);
  }

  /**
   * The `for ... of` loop with `break` itself: it walks `s` in order and
   * stops at the first element on which `f` finds something.
   */
  method FirstFoundLoop<T, U>(s: seq<T>, f: T -> Option<U>) returns (found: Option<(nat, U)>)
    ensures found == FirstFound(s, f, 0)
  {
    found := None;
    var i := 0;
    while i < |s|
      invariant 0 <= i <= |s|
      invariant forall r :: 0 <= r < i ==> f(s[r]).None?
    {
      var hit := f(s[i]);
      if hit.Some? {
        found := Some((i, hit.value));
        FirstFoundAt(s, f, i, hit.value);
        break;
      }
      i := i + 1;
    }
  }
}
