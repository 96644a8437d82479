/**
 `Array.prototype.filter` over immutable sequences, and the subsequence
 relation that describes what a filter may return.
 */
module Seqs {

  /** `a` is obtained from `b` by deleting elements, keeping the order of
      what is left. */
  predicate IsSubsequence<T(==)>(a: seq<T>, b: seq<T>)
    decreases |b|
  {
    if |a| == 0 then true
    else if |b| == 0 then false
    else if a[0] == b[0] then IsSubsequence(a[1..], b[1..])
    else IsSubsequence(a, b[1..])
  }

  lemma {:induction false} SubsequenceLength<T>(a: seq<T>, b: seq<T>)
    requires IsSubsequence(a, b)
    ensures |a| <= |b|
    decreases |b|
  {
    if |a| > 0 {
      if a[0] == b[0] {
        SubsequenceLength(a[1..], b[1..]);
      } else {
        SubsequenceLength(a, b[1..]);
      }
    }
  }

  /** A subsequence holds each value at most as often as the original does. */
  lemma {:induction false} SubsequenceMultiset<T>(a: seq<T>, b: seq<T>)
    requires IsSubsequence(a, b)
    ensures multiset(a) <= multiset(b)
    decreases |b|
  {
    if |a| > 0 {
      assert a == [a[0]] + a[1..];
      assert b == [b[0]] + b[1..];
      if a[0] == b[0] {
        SubsequenceMultiset(a[1..], b[1..]);
      } else {
        SubsequenceMultiset(a, b[1..]);
      }
    }
  }

  /** `Array.prototype.filter`: the elements of `s` that `keep` accepts, in
      their original order. */
  function Filter<T(==,!new)>(s: seq<T>, keep: T -> bool): (r: seq<T>)
    ensures |r| <= |s|
    ensures forall x :: x in r <==> x in s && keep(x)
    ensures forall x :: multiset(r)[x] == if keep(x) then multiset(s)[x] else 0
    ensures IsSubsequence(r, s)
    decreases |s|
  {
    if |s| == 0 then []
    else
      var rest := Filter(s[1..], keep);
      assert forall x :: x in s <==> x == s[0] || x in s[1..];
      assert s == [s[0]] + s[1..];
      if keep(s[0]) then
        assert ([s[0]] + rest)[1..] == rest;
        [s[0]] + rest
      else
        SubsequenceSkip(rest, s);
        rest
  }

  /** An element of `b` that the subsequence skips can be put back in front. */
  lemma {:induction false} SubsequenceSkip<T>(a: seq<T>, b: seq<T>)
    requires |b| > 0 && IsSubsequence(a, b[1..])
    ensures IsSubsequence(a, b)
    decreases |b|, 0
  {
    if |a| > 0 && a[0] == b[0] {
      SubsequenceDropHead(a, b[1..]);
    }
  }

  lemma {:induction false} SubsequenceDropHead<T>(a: seq<T>, b: seq<T>)
    requires |a| > 0 && IsSubsequence(a, b)
    ensures IsSubsequence(a[1..], b)
    decreases |b|, 1
  {
    if a[0] == b[0] {
      SubsequenceSkip(a[1..], b);
    } else {
      SubsequenceDropHead(a, b[1..]);
      SubsequenceSkip(a[1..], b);
    }
  }

  /** The contract of `Filter` determines its result: the only subsequence
      of `s` that holds every accepted value as often as `s` does and no
      rejected value is `Filter(s, keep)`. */
  lemma {:induction false} FilterIsUnique<T(!new)>(s: seq<T>, keep: T -> bool, r: seq<T>)
    requires IsSubsequence(r, s)
    requires forall x :: multiset(r)[x] == if keep(x) then multiset(s)[x] else 0
    ensures r == Filter(s, keep)
    decreases |s|
  {
    if |s| > 0 {
      var x := s[0];
      assert s == [x] + s[1..];
      var t := s[1..];
      if r != [] && r[0] == x {
        assert r == [x] + r[1..];
        assert keep(x) by { assert multiset(r)[x] > 0; }
        assert forall y :: multiset(r[1..])[y] == if keep(y) then multiset(t)[y] else 0 by {
          forall y ensures multiset(r[1..])[y] == if keep(y) then multiset(t)[y] else 0 {
            assert multiset(r)[y] == multiset([x])[y] + multiset(r[1..])[y];
            assert multiset(s)[y] == multiset([x])[y] + multiset(t)[y];
          }
        }
        FilterIsUnique(t, keep, r[1..]);
      } else {
        assert IsSubsequence(r, t);
        SubsequenceMultiset(r, t);
        assert multiset(r)[x] < multiset(s)[x] by {
          assert multiset(s)[x] == multiset(t)[x] + 1;
        }
        assert !keep(x);
        assert forall y :: multiset(r)[y] == if keep(y) then multiset(t)[y] else 0 by {
          forall y ensures multiset(r)[y] == if keep(y) then multiset(t)[y] else 0 {
            assert multiset(s)[y] == multiset([x])[y] + multiset(t)[y];
          }
        }
        FilterIsUnique(t, keep, r);
      }
    } else {
      assert r == [];
    }
  }

  /** A filter that accepts every element returns the sequence unchanged. */
  lemma {:induction false} FilterKeepsAll<T(!new)>(s: seq<T>, keep: T -> bool)
    requires forall k :: 0 <= k < |s| ==> keep(s[k])
    ensures Filter(s, keep) == s
    decreases |s|
  {
    if |s| > 0 {
      FilterKeepsAll(s[1..], keep);
    }
  }

  /** A stricter filter returns a subsequence of a looser filter's result,
      and so never more elements. */
  lemma {:induction false} FilterStricter<T(!new)>(s: seq<T>, strict: T -> bool, loose: T -> bool)
    requires forall k :: 0 <= k < |s| && strict(s[k]) ==> loose(s[k])
    ensures IsSubsequence(Filter(s, strict), Filter(s, loose))
    ensures |Filter(s, strict)| <= |Filter(s, loose)|
    decreases |s|
  {
    if |s| > 0 {
      FilterStricter(s[1..], strict, loose);
      var a, b := Filter(s[1..], strict), Filter(s[1..], loose);
      if strict(s[0]) {
        assert ([s[0]] + a)[1..] == a;
        assert ([s[0]] + b)[1..] == b;
      } else if loose(s[0]) {
        assert ([s[0]] + b)[1..] == b;
        SubsequenceSkip(a, [s[0]] + b);
      }
    }
    SubsequenceLength(Filter(s, strict), Filter(s, loose));
  }
}
