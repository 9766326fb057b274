/** Clone bindings of src/engine/instance.c: which engine stands for which after a
    fork, and how the bindings of successive forks compose. Engines are any type
    with equality; `EngineClone` uses engine objects. */
module Bindings {

  datatype Option<T> = None | Some(value: T)

  datatype Binding<E> = Binding(source: E, clone: E)

  /** The first binding of `source`, as every search of the sources finds it. */
  function Lookup<E(==)>(bindings: seq<Binding<E>>, source: E): Option<E> {
    if bindings == [] then None
    else if bindings[0].source == source then Some(bindings[0].clone)
    else Lookup(bindings[1..], source)
  }

  /** No source is bound twice. */
  ghost predicate DistinctSources<E>(bindings: seq<Binding<E>>) {
    forall i, j :: 0 <= i < j < |bindings| ==> bindings[i].source != bindings[j].source
  }

  lemma {:induction false} LookupFinds<E>(bindings: seq<Binding<E>>, e: E)
    ensures Lookup(bindings, e).None? <==> forall i :: 0 <= i < |bindings| ==> bindings[i].source != e
    ensures Lookup(bindings, e).Some? ==>
              exists i :: 0 <= i < |bindings| && bindings[i] == Binding(e, Lookup(bindings, e).value)
  {
    if bindings != [] {
      LookupFinds(bindings[1..], e);
      if bindings[0].source != e {
        assert forall i :: 0 < i < |bindings| ==> bindings[i] == bindings[1..][i - 1];
        assert forall i :: 0 <= i < |bindings[1..]| ==> bindings[1..][i] == bindings[i + 1];
        if Lookup(bindings[1..], e).Some? {
          var i :| 0 <= i < |bindings[1..]| && bindings[1..][i] == Binding(e, Lookup(bindings, e).value);
          assert bindings[i + 1] == Binding(e, Lookup(bindings, e).value);
        }
      } else {
        assert bindings[0] == Binding(e, Lookup(bindings, e).value);
      }
    }
  }

  lemma LookupAt<E>(bindings: seq<Binding<E>>, i: nat)
    requires i < |bindings| && DistinctSources(bindings)
    ensures Lookup(bindings, bindings[i].source) == Some(bindings[i].clone)
  {
    LookupFinds(bindings, bindings[i].source);
  }

  lemma {:induction false} LookupAppend<E>(a: seq<Binding<E>>, b: seq<Binding<E>>, e: E)
    ensures Lookup(a + b, e) == if Lookup(a, e).Some? then Lookup(a, e) else Lookup(b, e)
  {
    if a == [] {
      assert a + b == b;
    } else {
      assert (a + b)[1..] == a[1..] + b;
      LookupAppend(a[1..], b, e);
    }
  }

  /** The list `exec_clone_engine_bind` leaves behind: the new bindings, then every inherited
      one whose source is not bound yet and whose clone the new bindings carry further. */
  ghost function Composed<E>(bindings: seq<Binding<E>>, inherited: seq<Binding<E>>): seq<Binding<E>>
    decreases |inherited|
  {
    if inherited == [] then bindings
    else
      var done := Composed(bindings, inherited[..|inherited| - 1]);
      Carried(bindings, done, inherited[|inherited| - 1])
  }

  ghost function Carried<E>(bindings: seq<Binding<E>>, done: seq<Binding<E>>, last: Binding<E>): seq<Binding<E>> {
    if Lookup(done, last.source).Some? then done
    else match Lookup(bindings, last.clone)
         case Some(clone) => done + [Binding(last.source, clone)]
         case None => done
  }

  /** The loops of `exec_clone_engine_bind`, on the array of bindings it builds. */
  method Compose<E(==)>(bindings: seq<Binding<E>>, inherited: seq<Binding<E>>) returns (replacement: seq<Binding<E>>)
    ensures replacement == Composed(bindings, inherited)
  {
    replacement := bindings;
    var i := 0;
    while i < |inherited|
      invariant 0 <= i <= |inherited|
      invariant replacement == Composed(bindings, inherited[..i])
    {
      var seen := FindSource(replacement, inherited[i].source);
      if seen.None? {
        var further := FindSource(bindings, inherited[i].clone);
        if further.Some? {
          replacement := replacement + [Binding(inherited[i].source, further.value)];
        }
      }
      assert inherited[..i + 1][..i] == inherited[..i];
      i := i + 1;
    }
    assert inherited[..i] == inherited;
  }

  /** The search loop shared by `exec_clone_resolve` and `mapped_engine`. */
  method FindSource<E(==)>(bindings: seq<Binding<E>>, source: E) returns (r: Option<E>)
    ensures r == Lookup(bindings, source)
  {
    var i := 0;
    while i < |bindings|
      invariant 0 <= i <= |bindings|
      invariant Lookup(bindings, source) == Lookup(bindings[i..], source)
    {
      if bindings[i].source == source {
        return Some(bindings[i].clone);
      }
      assert bindings[i..][1..] == bindings[i + 1..];
      i := i + 1;
    }
    return None;
  }

  // ---- what composition means ---------------------------------------------------

  /** A composed table answers like the new bindings, and for the rest like the inherited
      table followed by the new bindings. */
  lemma {:induction false} ComposedLookup<E>(bindings: seq<Binding<E>>, inherited: seq<Binding<E>>, e: E)
    requires DistinctSources(inherited)
    ensures Lookup(Composed(bindings, inherited), e) ==
            (if Lookup(bindings, e).Some? then Lookup(bindings, e)
             else match Lookup(inherited, e)
                  case Some(m) => Lookup(bindings, m)
                  case None => None)
    decreases |inherited|
  {
    if inherited != [] {
      var n := |inherited| - 1;
      var init, last := inherited[..n], inherited[n];
      assert inherited == init + [last];
      var done := Composed(bindings, init);
      ComposedLookup(bindings, init, e);
      ComposedLookup(bindings, init, last.source);
      LookupAppend(init, [last], e);
      LookupAppend(init, [last], last.source);
      LookupFinds(init, last.source);
      match Lookup(bindings, last.clone) {
        case Some(c) => LookupAppend(done, [Binding(last.source, c)], e);
        case None =>
      }
    }
  }

  lemma {:induction false} ComposedDistinct<E>(bindings: seq<Binding<E>>, inherited: seq<Binding<E>>)
    requires DistinctSources(bindings)
    ensures DistinctSources(Composed(bindings, inherited))
    decreases |inherited|
  {
    if inherited != [] {
      var n := |inherited| - 1;
      ComposedDistinct(bindings, inherited[..n]);
      LookupFinds(Composed(bindings, inherited[..n]), inherited[n].source);
    }
  }

  // ---- generations of forks -----------------------------------------------------

  /** The bindings of an engine that was cloned in every one of these forks. */
  ghost function AfterForks<E>(forks: seq<seq<Binding<E>>>): seq<Binding<E>> {
    if forks == [] then []
    else Composed(forks[|forks| - 1], AfterForks(forks[..|forks| - 1]))
  }

  ghost predicate EachDistinct<E>(forks: seq<seq<Binding<E>>>) {
    forall g :: 0 <= g < |forks| ==> DistinctSources(forks[g])
  }

  lemma {:induction false} AfterForksDistinct<E>(forks: seq<seq<Binding<E>>>)
    requires EachDistinct(forks)
    ensures DistinctSources(AfterForks(forks))
  {
    if forks != [] {
      var n := |forks| - 1;
      AfterForksDistinct(forks[..n]);
      ComposedDistinct(forks[n], AfterForks(forks[..n]));
    }
  }

  /** An engine that no fork of the graph ever cloned is not rebound. */
  lemma {:induction false} OthersUnbound<E>(forks: seq<seq<Binding<E>>>, e: E)
    requires EachDistinct(forks) && forall g :: 0 <= g < |forks| ==> Lookup(forks[g], e).None?
    ensures Lookup(AfterForks(forks), e).None?
    decreases |forks|
  {
    if forks != [] {
      var n := |forks| - 1;
      AfterForksDistinct(forks[..n]);
      OthersUnbound(forks[..n], e);
      ComposedLookup(forks[n], AfterForks(forks[..n]), e);
    }
  }
}
