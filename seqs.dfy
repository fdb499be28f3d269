/** The JavaScript array operations the stores rely on: `filter` and `find`, over sequences. */
module Seqs {
  import opened Wrappers

  /** `a` is obtained from `b` by deleting elements, keeping the order of the rest. */
  ghost predicate IsSubsequence<T>(a: seq<T>, b: seq<T>)
    decreases |b|
  {
    if a == [] then true
    else if b == [] then false
    else (a[0] == b[0] && IsSubsequence(a[1..], b[1..])) || IsSubsequence(a, b[1..])
  }

  /** `Array.prototype.filter`: the elements of `s` satisfying `p`, in their original order. */
  function Filter<T(!new)>(s: seq<T>, p: T -> bool): (r: seq<T>)
    ensures |r| <= |s|
    ensures forall x :: x in r <==> x in s && p(x)
  {
    if s == [] then [] else (if p(s[0]) then [s[0]] else []) + Filter(s[1..], p)
  }

  /** `x` satisfies every predicate of `ps`. */
  predicate AllHold<T>(ps: seq<T -> bool>, x: T) {
    forall i :: 0 <= i < |ps| ==> ps[i](x)
  }

  /** Every predicate of a concatenation holds exactly when those of both parts do. */
  lemma AllHoldConcat<T>(ps: seq<T -> bool>, qs: seq<T -> bool>, x: T)
    ensures AllHold(ps + qs, x) <==> AllHold(ps, x) && AllHold(qs, x)
  {
    if AllHold(ps, x) && AllHold(qs, x) {
      forall i | 0 <= i < |ps + qs| ensures (ps + qs)[i](x) {
        if i >= |ps| {
          assert (ps + qs)[i] == qs[i - |ps|];
        }
      }
    }
    if AllHold(ps + qs, x) {
      forall i | 0 <= i < |ps| ensures ps[i](x) {
        assert (ps + qs)[i] == ps[i];
      }
      forall i | 0 <= i < |qs| ensures qs[i](x) {
        assert (ps + qs)[|ps| + i] == qs[i];
      }
    }
  }

  /** A single predicate holds as itself. */
  lemma AllHoldOne<T>(p: T -> bool, x: T)
    ensures AllHold([p], x) == p(x)
  {
    assert [p][0] == p;
  }

  /** Successive `filter` passes, one per predicate of `ps`, in order. */
  function FilterEach<T(!new)>(s: seq<T>, ps: seq<T -> bool>): seq<T>
    decreases |ps|
  {
    if ps == [] then s else FilterEach(Filter(s, ps[0]), ps[1..])
  }

  /** `i` is the first position of `s` holding an element that satisfies `p`. */
  ghost predicate IsFirst<T>(s: seq<T>, p: T -> bool, i: nat) {
    i < |s| && p(s[i]) && forall j :: 0 <= j < i ==> !p(s[j])
  }

  /** `Array.prototype.findIndex`, with `None` for -1. */
  function IndexOf<T(!new)>(s: seq<T>, p: T -> bool): (r: Option<nat>)
    ensures r.Some? ==> IsFirst(s, p, r.value)
    ensures r.None? ==> forall x :: x in s ==> !p(x)
  {
    if s == [] then None
    else if p(s[0]) then Some(0)
    else match IndexOf(s[1..], p)
      case None => None
      case Some(i) => Some(i + 1)
  }

  /** `Array.prototype.find`, with `None` for undefined: the first element satisfying `p`. */
  function Find<T(!new)>(s: seq<T>, p: T -> bool): (r: Option<T>)
    ensures r.None? <==> forall x :: x in s ==> !p(x)
    ensures r.Some? ==> IndexOf(s, p).Some? && r.value == s[IndexOf(s, p).value] && p(r.value)
  {
    match IndexOf(s, p)
    case None => None
    case Some(i) => Some(s[i])
  }

  /** Filtering never reorders: its result is a subsequence of its input. */
  lemma {:induction false} FilterIsSubsequence<T(!new)>(s: seq<T>, p: T -> bool)
    ensures IsSubsequence(Filter(s, p), s)
  {
    if s != [] {
      FilterIsSubsequence(s[1..], p);
      var r := Filter(s[1..], p);
      if p(s[0]) {
        assert Filter(s, p) == [s[0]] + r;
        assert ([s[0]] + r)[1..] == r;
      } else {
        assert Filter(s, p) == r;
        SubsequenceOfTail(r, s);
      }
    }
  }

  /** A subsequence of the tail is a subsequence of the whole. */
  lemma {:induction false} SubsequenceOfTail<T(!new)>(a: seq<T>, b: seq<T>)
    requires b != [] && IsSubsequence(a, b[1..])
    ensures IsSubsequence(a, b)
  {
  }

  /** Filtering keeps each element exactly as often as the input holds it, or drops all its copies. */
  lemma {:induction false} FilterMultiplicity<T(!new)>(s: seq<T>, p: T -> bool, x: T)
    ensures multiset(Filter(s, p))[x] == if p(x) then multiset(s)[x] else 0
  {
    if s != [] {
      FilterMultiplicity(s[1..], p, x);
      assert s == [s[0]] + s[1..];
      assert multiset(s) == multiset([s[0]]) + multiset(s[1..]);
      var head := if p(s[0]) then [s[0]] else [];
      assert multiset(Filter(s, p)) == multiset(head) + multiset(Filter(s[1..], p));
    }
  }

  /** A pass with a predicate every element satisfies changes nothing. */
  lemma {:induction false} FilterKeepsAll<T(!new)>(s: seq<T>, p: T -> bool)
    requires forall x :: x in s ==> p(x)
    ensures Filter(s, p) == s
  {
    if s != [] {
      FilterKeepsAll(s[1..], p);
      assert [s[0]] + s[1..] == s;
    }
  }

  /** Two passes in a row equal one pass with the conjunction of their predicates. */
  lemma {:induction false} FilterFilter<T(!new)>(s: seq<T>, p: T -> bool, q: T -> bool, pq: T -> bool)
    requires forall x :: x in s ==> pq(x) == (p(x) && q(x))
    ensures Filter(Filter(s, p), q) == Filter(s, pq)
  {
    if s != [] {
      FilterFilter(s[1..], p, q, pq);
      if p(s[0]) {
        assert Filter(s, p) == [s[0]] + Filter(s[1..], p);
        assert Filter(s, p)[1..] == Filter(s[1..], p);
      } else {
        assert Filter(s, p) == Filter(s[1..], p);
      }
    }
  }

  /** Successive passes select exactly the elements that satisfy all the predicates, in order. */
  lemma {:induction false} FilterEachIsFilter<T(!new)>(s: seq<T>, ps: seq<T -> bool>, all: T -> bool)
    requires forall x :: x in s ==> all(x) == AllHold(ps, x)
    ensures FilterEach(s, ps) == Filter(s, all)
    decreases |ps|
  {
    if ps == [] {
      FilterKeepsAll(s, all);
    } else {
      var rest := (x: T) => AllHold(ps[1..], x);
      var s1 := Filter(s, ps[0]);
      FilterEachIsFilter(s1, ps[1..], rest);
      forall x | x in s ensures all(x) == (ps[0](x) && rest(x)) {
        assert AllHold(ps, x) ==> ps[0](x) && AllHold(ps[1..], x) by {
          if AllHold(ps, x) {
            forall i | 0 <= i < |ps[1..]| ensures ps[1..][i](x) {
              assert ps[1..][i] == ps[i + 1];
            }
          }
        }
        assert ps[0](x) && AllHold(ps[1..], x) ==> AllHold(ps, x) by {
          if ps[0](x) && AllHold(ps[1..], x) {
            forall i | 0 <= i < |ps| ensures ps[i](x) {
              if i > 0 { assert ps[i] == ps[1..][i - 1]; }
            }
          }
        }
      }
      FilterFilter(s, ps[0], rest, all);
    }
  }

  /** Appending an element moves no earlier first match. */
  lemma {:induction false} IndexOfAppend<T(!new)>(s: seq<T>, x: T, p: T -> bool)
    ensures IndexOf(s + [x], p) ==
      if IndexOf(s, p).Some? then IndexOf(s, p) else if p(x) then Some(|s|) else None
  {
    if s != [] {
      assert (s + [x])[1..] == s[1..] + [x];
      IndexOfAppend(s[1..], x, p);
    }
  }
}
