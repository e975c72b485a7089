/**
 * Order-preserving filtering of sequences, the operation behind
 * `Array.prototype.filter` and a global regular-expression `replace` that
 * deletes every character of a class.
 */
module Sequences {

  /** `sub` can be obtained from `s` by deleting elements (greedy matching). */
  predicate IsSubsequence<T(==)>(sub: seq<T>, s: seq<T>)
    decreases |s|
  {
    if sub == [] then true
    else if s == [] then false
    else if sub[0] == s[0] then IsSubsequence(sub[1..], s[1..])
    else IsSubsequence(sub, s[1..])
  }

  /** Every sequence is a subsequence of itself. */
  lemma {:induction false} SubsequenceRefl<T(!new)>(s: seq<T>)
    ensures IsSubsequence(s, s)
    decreases |s|
  {
    if s != [] {
      SubsequenceRefl(s[1..]);
    }
  }

  /** The elements of `s` that satisfy `keep`, in their original order. */
  function Filter<T(==,!new)>(s: seq<T>, keep: T -> bool): (r: seq<T>)
    ensures |r| <= |s|
    ensures forall i :: 0 <= i < |r| ==> keep(r[i])
    ensures forall x :: multiset(r)[x] == if keep(x) then multiset(s)[x] else 0
    ensures IsSubsequence(r, s)
    decreases |s|
  {
    if s == [] then []
    else
      var tail := Filter(s[1..], keep);
      assert s == [s[0]] + s[1..];
      if keep(s[0]) then
        assert ([s[0]] + tail)[1..] == tail;
        [s[0]] + tail
      else
        SubsequenceSkip(tail, s);
        tail
  }

  /** Dropping the head of `s` keeps any subsequence of its tail a subsequence of `s`. */
  lemma {:induction false} SubsequenceSkip<T(!new)>(sub: seq<T>, s: seq<T>)
    requires s != [] && IsSubsequence(sub, s[1..])
    ensures IsSubsequence(sub, s)
    decreases |s|, |sub|
  {
    if sub != [] && sub[0] == s[0] {
      // the greedy match takes `s[0]`; the rest of `sub` still fits after it
      SubsequenceTail(sub, s[1..]);
    }
  }

  /** A subsequence with its head removed is still a subsequence. */
  lemma {:induction false} SubsequenceTail<T(!new)>(sub: seq<T>, s: seq<T>)
    requires sub != [] && IsSubsequence(sub, s)
    ensures IsSubsequence(sub[1..], s)
    decreases |s|, |sub|
  {
    if sub[0] == s[0] {
      SubsequenceSkip(sub[1..], s);
    } else {
      SubsequenceTail(sub, s[1..]);
      SubsequenceSkip(sub[1..], s);
    }
  }

  /** A subsequence all of whose elements satisfy `keep` is no longer than the filter. */
  lemma {:induction false} KeptSubsequenceBound<T(!new)>(sub: seq<T>, s: seq<T>, keep: T -> bool)
    requires IsSubsequence(sub, s)
    requires forall i :: 0 <= i < |sub| ==> keep(sub[i])
    ensures |sub| <= |Filter(s, keep)|
    decreases |s|
  {
    if sub != [] {
      assert s != [];
      if sub[0] == s[0] {
        KeptSubsequenceBound(sub[1..], s[1..], keep);
      } else {
        KeptSubsequenceBound(sub, s[1..], keep);
      }
    }
  }

  /**
   * The filter is the only subsequence that satisfies `keep` throughout and is
   * as long as the filter: "exactly the elements that pass, in their order".
   */
  lemma {:induction false} FilterUnique<T(!new)>(r: seq<T>, s: seq<T>, keep: T -> bool)
    requires IsSubsequence(r, s)
    requires forall i :: 0 <= i < |r| ==> keep(r[i])
    requires |r| == |Filter(s, keep)|
    ensures r == Filter(s, keep)
    decreases |s|
  {
    if s != [] {
      if r == [] {
        assert keep(s[0]) ==> |Filter(s, keep)| >= 1;
      } else if r[0] == s[0] {
        assert keep(s[0]);
        FilterUnique(r[1..], s[1..], keep);
        assert r == [r[0]] + r[1..];
      } else {
        KeptSubsequenceBound(r, s[1..], keep);
        // a kept head would make the filter longer than any kept subsequence of the tail
        assert !keep(s[0]);
        FilterUnique(r, s[1..], keep);
      }
    }
  }

  /** Filtering what is already filtered changes nothing. */
  lemma {:induction false} FilterIdempotent<T(!new)>(s: seq<T>, keep: T -> bool)
    ensures Filter(Filter(s, keep), keep) == Filter(s, keep)
  {
    FilterAllKept(Filter(s, keep), keep);
  }

  /** A sequence whose every element passes is its own filter. */
  lemma {:induction false} FilterAllKept<T(!new)>(s: seq<T>, keep: T -> bool)
    requires forall i :: 0 <= i < |s| ==> keep(s[i])
    ensures Filter(s, keep) == s
    decreases |s|
  {
    if s != [] {
      FilterAllKept(s[1..], keep);
      assert s == [s[0]] + s[1..];
    }
  }

  /** Filtering distributes over concatenation. */
  lemma {:induction false} FilterConcat<T(!new)>(a: seq<T>, b: seq<T>, keep: T -> bool)
    ensures Filter(a + b, keep) == Filter(a, keep) + Filter(b, keep)
    decreases |a|
  {
    if a == [] {
      assert a + b == b;
    } else {
      assert (a + b)[0] == a[0] && (a + b)[1..] == a[1..] + b;
      FilterConcat(a[1..], b, keep);
    }
  }
}
