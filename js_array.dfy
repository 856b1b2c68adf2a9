/**
 * `Array.prototype.filter` on a sequence, and what it means for one sequence
 * to be an order-preserving subsequence of another.
 */
module JsArray {

  /** `s.filter(p)`: the elements of `s` that satisfy `p`, in their original order. */
  function Keep<T>(s: seq<T>, p: T -> bool): (r: seq<T>)
    ensures |r| <= |s|
    ensures forall i :: 0 <= i < |r| ==> p(r[i])
  {
    if s == [] then [] else (if p(s[0]) then [s[0]] else []) + Keep(s[1..], p)
  }

  /** An element is kept exactly when it occurs in `s` and passes `p`. */
  lemma {:induction false} KeepMembership<T>(s: seq<T>, p: T -> bool)
    ensures forall x :: x in Keep(s, p) <==> x in s && p(x)
  {
    if s != [] {
      KeepMembership(s[1..], p);
      assert s == [s[0]] + s[1..];
    }
  }

  /** `idx` lists, in strictly increasing order, positions of `b` that spell out `a`. */
  ghost predicate Embedding<T>(idx: seq<nat>, a: seq<T>, b: seq<T>) {
    && |idx| == |a|
    && (forall k :: 0 <= k < |idx| ==> idx[k] < |b| && a[k] == b[idx[k]])
    && (forall k, l :: 0 <= k < l < |idx| ==> idx[k] < idx[l])
  }

  /** `a` is obtained from `b` by deleting elements, keeping the order of the rest. */
  ghost predicate IsSubsequence<T>(a: seq<T>, b: seq<T>) {
    exists idx :: Embedding(idx, a, b)
  }

  /** The positions of `idx`, each moved one place to the right. */
  function Shifted(idx: seq<nat>): (r: seq<nat>)
    ensures |r| == |idx| && forall k :: 0 <= k < |idx| ==> r[k] == idx[k] + 1
  {
    seq(|idx|, k requires 0 <= k < |idx| => idx[k] + 1)
  }

  /** An embedding of `a` in `b` survives putting `x` in front of `b`, and of both. */
  lemma ConsEmbedding<T>(idx: seq<nat>, a: seq<T>, b: seq<T>, x: T)
    requires Embedding(idx, a, b)
    ensures Embedding(Shifted(idx), a, [x] + b)
    ensures Embedding([0] + Shifted(idx), [x] + a, [x] + b)
  {
    var sh := Shifted(idx);
    forall k | 0 <= k < |sh|
      ensures sh[k] < |[x] + b| && a[k] == ([x] + b)[sh[k]]
    {
    }
    var sh0 := [0] + sh;
    forall k | 0 <= k < |sh0|
      ensures sh0[k] < |[x] + b| && ([x] + a)[k] == ([x] + b)[sh0[k]]
    {
      if k > 0 {
        assert sh0[k] == sh[k - 1];
      }
    }
  }

  /** Filtering yields an order-preserving subsequence. */
  lemma {:induction false} KeepIsSubsequence<T>(s: seq<T>, p: T -> bool)
    ensures IsSubsequence(Keep(s, p), s)
  {
    if s == [] {
      assert Embedding([], Keep(s, p), s);
    } else {
      KeepIsSubsequence(s[1..], p);
      var rest := Keep(s[1..], p);
      var idx :| Embedding(idx, rest, s[1..]);
      ConsEmbedding(idx, rest, s[1..], s[0]);
      assert [s[0]] + s[1..] == s;
      if p(s[0]) {
        assert Keep(s, p) == [s[0]] + rest;
        assert Embedding([0] + Shifted(idx), Keep(s, p), s);
      } else {
        assert Keep(s, p) == rest;
        assert Embedding(Shifted(idx), Keep(s, p), s);
      }
    }
  }

  /** Filtering keeps every occurrence of a passing element and none of a failing one. */
  lemma {:induction false} KeepMultiplicity<T>(s: seq<T>, p: T -> bool, x: T)
    ensures multiset(Keep(s, p))[x] == if p(x) then multiset(s)[x] else 0
  {
    if s != [] {
      KeepMultiplicity(s[1..], p, x);
      assert s == [s[0]] + s[1..];
    }
  }

  /** Filtering changes nothing exactly when every element passes. */
  lemma {:induction false} KeepAll<T>(s: seq<T>, p: T -> bool)
    ensures Keep(s, p) == s <==> forall x :: x in s ==> p(x)
  {
    if s != [] && forall x :: x in s ==> p(x) {
      KeepAll(s[1..], p);
    }
  }

  /** Filtering a second time by the same predicate changes nothing. */
  lemma KeepIdempotent<T>(s: seq<T>, p: T -> bool)
    ensures Keep(Keep(s, p), p) == Keep(s, p)
  {
    KeepAll(Keep(s, p), p);
  }

  /** Filtering a sequence with a known first element. */
  lemma KeepCons<T>(x: T, s: seq<T>, p: T -> bool)
    ensures Keep([x] + s, p) == (if p(x) then [x] else []) + Keep(s, p)
  {
    assert ([x] + s)[1..] == s;
  }

  /** Filtering distributes over concatenation. */
  lemma {:induction false} KeepConcat<T>(a: seq<T>, b: seq<T>, p: T -> bool)
    ensures Keep(a + b, p) == Keep(a, p) + Keep(b, p)
  {
    if a == [] {
      assert a + b == b;
    } else {
      var head := if p(a[0]) then [a[0]] else [];
      KeepConcat(a[1..], b, p);
      assert (a + b)[0] == a[0] && (a + b)[1..] == a[1..] + b;
      calc {
        Keep(a + b, p);
        head + Keep(a[1..] + b, p);
        head + (Keep(a[1..], p) + Keep(b, p));
        (head + Keep(a[1..], p)) + Keep(b, p);
        Keep(a, p) + Keep(b, p);
      }
    }
  }
}
