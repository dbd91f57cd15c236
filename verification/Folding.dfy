/** Runs of a state machine over a sequence of inputs, and what the last write of a run decides. */
module Folding {
  import opened Options

  /** The state after all of `es`, oldest first. */
  function Fold<S, E>(step: (S, E) -> S, s: S, es: seq<E>): S {
    if es == [] then s else step(Fold(step, s, es[..|es| - 1]), es[|es| - 1])
  }

  lemma FoldExtend<S, E>(step: (S, E) -> S, s: S, es: seq<E>, e: E)
    ensures Fold(step, s, es + [e]) == step(Fold(step, s, es), e)
  {
    assert (es + [e])[..|es|] == es;
  }

  lemma {:induction false} FoldAppend<S, E>(step: (S, E) -> S, s: S, a: seq<E>, b: seq<E>)
    ensures Fold(step, s, a + b) == Fold(step, Fold(step, s, a), b)
  {
    if b == [] {
      assert a + b == a;
    } else {
      assert (a + b)[..|a + b| - 1] == a + b[..|b| - 1];
      FoldAppend(step, s, a, b[..|b| - 1]);
    }
  }

  /** A property that every step keeps holds after every run. */
  lemma {:induction false} FoldKeeps<S(!new), E(!new)>(inv: S -> bool, step: (S, E) -> S, s: S, es: seq<E>)
    requires inv(s)
    requires forall t, e :: inv(t) ==> inv(step(t, e))
    ensures inv(Fold(step, s, es))
  {
    if es != [] {
      FoldKeeps(inv, step, s, es[..|es| - 1]);
    }
  }

  /** The value of the last input that writes one, or `init`. */
  function LastWrite<E, V>(writes: E -> Option<V>, init: V, es: seq<E>): V {
    if es == [] then init
    else
      match writes(es[|es| - 1])
      case Some(v) => v
      case None => LastWrite(writes, init, es[..|es| - 1])
  }

  /** Either nothing wrote, or the last write is found in the sequence. */
  lemma {:induction false} LastWriteFound<E, V>(writes: E -> Option<V>, init: V, es: seq<E>)
    ensures LastWrite(writes, init, es) != init ==>
      exists k :: 0 <= k < |es| && writes(es[k]) == Some(LastWrite(writes, init, es))
               && forall j :: k < j < |es| ==> writes(es[j]).None?
  {
    if es != [] {
      if writes(es[|es| - 1]).None? {
        LastWriteFound(writes, init, es[..|es| - 1]);
      } else {
        assert writes(es[|es| - 1]) == Some(LastWrite(writes, init, es));
      }
    }
  }

  /** When every write writes the same value, one write is enough. */
  lemma {:induction false} LastWriteAgreed<E, V>(writes: E -> Option<V>, init: V, es: seq<E>, v: V)
    requires exists k :: 0 <= k < |es| && writes(es[k]).Some?
    requires forall k :: 0 <= k < |es| && writes(es[k]).Some? ==> writes(es[k]).value == v
    ensures LastWrite(writes, init, es) == v
  {
    if writes(es[|es| - 1]).None? {
      LastWriteAgreed(writes, init, es[..|es| - 1], v);
    }
  }

  /** A part of the state that only some inputs write holds, after a run, what the last of them wrote. */
  lemma {:induction false} LastWriteDecides<S(!new), E(!new), V>(
    inv: S -> bool, step: (S, E) -> S, get: S -> V, writes: E -> Option<V>, s: S, es: seq<E>)
    requires inv(s)
    requires forall t, e :: inv(t) ==> inv(step(t, e))
    requires forall t, e :: inv(t) ==>
      get(step(t, e)) == match writes(e) case Some(v) => v case None => get(t)
    ensures get(Fold(step, s, es)) == LastWrite(writes, get(s), es)
  {
    if es != [] {
      FoldKeeps(inv, step, s, es[..|es| - 1]);
      LastWriteDecides(inv, step, get, writes, s, es[..|es| - 1]);
    }
  }

  function Filter<E>(p: E -> bool, es: seq<E>): (r: seq<E>)
    ensures forall e :: e in r ==> p(e) && e in es
  {
    if es == [] then []
    else Filter(p, es[..|es| - 1]) + if p(es[|es| - 1]) then [es[|es| - 1]] else []
  }

  lemma {:induction false} LastWriteOfFilter<E(!new), V>(
    writes: E -> Option<V>, p: E -> bool, init: V, es: seq<E>)
    requires forall e :: p(e) <==> writes(e).Some?
    ensures LastWrite(writes, init, es) == LastWrite(writes, init, Filter(p, es))
  {
    if es != [] {
      var front, last := es[..|es| - 1], es[|es| - 1];
      LastWriteOfFilter(writes, p, init, front);
      var kept := Filter(p, front);
      if p(last) {
        assert Filter(p, es) == kept + [last];
      } else {
        assert Filter(p, es) == kept;
      }
    }
  }

  lemma {:induction false} FilterMultiplicity<E>(p: E -> bool, es: seq<E>, e: E)
    ensures multiset(Filter(p, es))[e] == if p(e) then multiset(es)[e] else 0
  {
    if es != [] {
      FilterMultiplicity(p, es[..|es| - 1], e);
      assert es == es[..|es| - 1] + [es[|es| - 1]];
    }
  }

  /** Filtering a permutation down to at most one element gives the same sequence. */
  lemma FilterOfPermutation<E(!new)>(p: E -> bool, a: seq<E>, b: seq<E>)
    requires multiset(a) == multiset(b) && |Filter(p, a)| <= 1
    ensures Filter(p, a) == Filter(p, b)
  {
    var own, other := Filter(p, a), Filter(p, b);
    forall e: E ensures multiset(own)[e] == multiset(other)[e] {
      FilterMultiplicity(p, a, e);
      FilterMultiplicity(p, b, e);
    }
    assert multiset(own) == multiset(other);
    assert |multiset(own)| == |own| && |multiset(other)| == |other|;
    if |own| == 1 {
      assert own == [own[0]] && other == [other[0]];
      assert other[0] in multiset(own);
    }
  }
}
