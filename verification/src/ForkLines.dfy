/** Forks of forks: what the engine graph of src/engine/process.c:1509-1589 and the composed
    bindings of src/engine/instance.c:280-329 amount to along a line of processes, each
    forked by the one before. */
module ForkLines {
  import opened Bindings
  import opened EngineClone

  ghost function Engines(modules: seq<Module>): set<Engine> {
    set m | m in modules :: m.engine
  }

  /** A process as its forks need it: its engines are in the world, it has one form for each
      registered engine, and a form is the registered engine itself or a private one. */
  ghost predicate Settled(c: Capsule, all: set<Engine>, world: set<Engine>) {
    && c.engine in world && all <= world
    && (forall e :: e in all ==> Resolve(c, e) in world)
    && OneForm(c, all)
    && (forall e :: e in all ==> Resolve(c, e) == e || Resolve(c, e) !in all)
    && (c.engine in all ==> RootSource(c) == c.engine)
  }

  // ---- one fork ---------------------------------------------------------------------

  /** A fork by process `pid` clones the form of this registered engine: the process can see
      the engine, or its root stands for it. */
  ghost predicate Taken(root: Engine, modules: seq<Module>, pid: int, e: Engine) {
    e in Registered(modules, pid) || e == root
  }

  /** What a fork does to the forms of the registered engines: those it takes move to their
      clones, the others fall back to the registered engine. */
  ghost predicate Moves(parent: Capsule, child: Capsule, bindings: seq<Binding<Engine>>, modules: seq<Module>,
                        pid: int) {
    && RootSource(child) == RootSource(parent)
    && (forall e :: e in Engines(modules) ==>
          if Taken(RootSource(parent), modules, pid, e)
          then Lookup(bindings, Resolve(parent, e)) == Some(Resolve(child, e))
          else Lookup(bindings, Resolve(parent, e)).None? && Resolve(child, e) == e)
  }

  /** The bindings of a fork lead from forms of the parent out of its world. */
  ghost predicate LeadsOut(parent: Capsule, child: Capsule, bindings: seq<Binding<Engine>>, all: set<Engine>,
                           world: set<Engine>) {
    && DistinctSources(bindings) && Lookup(bindings, parent.engine) == Some(child.engine)
    && (forall j :: 0 <= j < |bindings| ==> bindings[j].clone !in world)
    && (forall i, j :: 0 <= i < j < |bindings| ==> bindings[i].clone != bindings[j].clone)
    && (forall j :: 0 <= j < |bindings| ==>
          bindings[j].source == parent.engine || exists e :: e in all && Resolve(parent, e) == bindings[j].source)
  }

  lemma ForkLeadsOut(parent: Capsule, child: Capsule, bindings: seq<Binding<Engine>>, modules: seq<Module>, pid: int,
                     world: set<Engine>)
    requires GraphCloned(bindings, world) && Matched(parent, child, Registered(modules, pid), bindings)
    ensures LeadsOut(parent, child, bindings, Engines(modules), world)
  {
    LookupAt(bindings, 0);
    forall j | 0 <= j < |bindings|
      ensures bindings[j].source == parent.engine
              || exists e :: e in Engines(modules) && Resolve(parent, e) == bindings[j].source
    {
      if j > 0 {
        assert child.linked[j - 1].source in Engines(modules);
      }
    }
  }

  lemma ForkMoves(parent: Capsule, child: Capsule, bindings: seq<Binding<Engine>>, modules: seq<Module>, pid: int)
    requires DistinctSources(bindings) && Matched(parent, child, Registered(modules, pid), bindings)
    requires OneForm(parent, Engines(modules))
    ensures Moves(parent, child, bindings, modules, pid)
  {
    assert Registered(modules, pid) <= Engines(modules);
    ChildResolves(parent, Registered(modules, pid), child, bindings);
    LookupAt(bindings, 0);
    forall e | e in Engines(modules) && !Taken(RootSource(parent), modules, pid, e)
      ensures Lookup(bindings, Resolve(parent, e)).None? && Resolve(child, e) == e
    {
      LookupFinds(bindings, Resolve(parent, e));
      LookupFinds(child.linked, e);
      forall j | 0 <= j < |bindings|
        ensures bindings[j].source != Resolve(parent, e)
      {
        if j > 0 {
          assert child.linked[j - 1].source in Engines(modules);
        }
      }
    }
  }

  lemma ChildSettled(parent: Capsule, child: Capsule, bindings: seq<Binding<Engine>>, modules: seq<Module>, pid: int,
                     world: set<Engine>)
    requires Settled(parent, Engines(modules), world) && Moves(parent, child, bindings, modules, pid)
    requires LeadsOut(parent, child, bindings, Engines(modules), world)
    ensures Settled(child, Engines(modules), world + Clones(bindings))
  {
    var all, root := Engines(modules), RootSource(parent);
    LookupFinds(bindings, parent.engine);
    forall e | e in all
      ensures Taken(root, modules, pid, e) ==> Resolve(child, e) in Clones(bindings) && Resolve(child, e) !in world
    {
      LookupFinds(bindings, Resolve(parent, e));
    }
    forall e | e in all
      ensures Resolve(child, e) == child.engine <==> e == RootSource(child)
    {
      LookupFinds(bindings, Resolve(parent, e));
    }
    forall e, f | e in all && f in all && Resolve(child, e) == Resolve(child, f)
      ensures e == f
    {
      LookupFinds(bindings, Resolve(parent, e));
      LookupFinds(bindings, Resolve(parent, f));
    }
  }

  // ---- a line of forks --------------------------------------------------------------

  /** A line of processes, each forked by the one before: the processes, the bindings of each
      fork, the registered modules, the pid of each process that forks, and the engines there
      were before each fork. */
  datatype Line = Line(processes: seq<Capsule>, forks: seq<seq<Binding<Engine>>>, modules: seq<Module>, pids: seq<int>,
                       worlds: seq<set<Engine>>)

  ghost predicate ForkLine(l: Line) {
    && |l.processes| == |l.worlds| == |l.forks| + 1 && |l.forks| <= |l.pids|
    && (forall g :: 0 <= g < |l.processes| ==> Settled(l.processes[g], Engines(l.modules), l.worlds[g]))
    && (forall g :: 0 <= g < |l.forks| ==> ForkAt(l, g))
  }

  ghost predicate ForkAt(l: Line, g: nat)
    requires g < |l.forks| && g < |l.pids| && g + 1 < |l.processes| && g + 1 < |l.worlds|
  {
    && Moves(l.processes[g], l.processes[g + 1], l.forks[g], l.modules, l.pids[g])
    && LeadsOut(l.processes[g], l.processes[g + 1], l.forks[g], Engines(l.modules), l.worlds[g])
    && l.worlds[g + 1] == l.worlds[g] + Clones(l.forks[g])
  }

  /** The form of a registered engine in process `g`. */
  ghost function Form(l: Line, g: nat, e: Engine): Engine
    requires g < |l.processes|
  {
    Resolve(l.processes[g], e)
  }

  /** Fork `g` clones the form of this engine. */
  ghost predicate TakenAt(l: Line, g: nat, e: Engine)
    requires g < |l.processes| && g < |l.pids|
  {
    Taken(RootSource(l.processes[g]), l.modules, l.pids[g], e)
  }

  /** Every fork from process `g` up to process `n` does. */
  ghost predicate Kept(l: Line, e: Engine, g: nat, n: nat)
    requires n <= |l.processes| && n <= |l.pids|
  {
    forall k :: g <= k < n ==> TakenAt(l, k, e)
  }

  lemma {:induction false} WorldsGrow(l: Line, g: nat, k: nat)
    requires ForkLine(l) && g <= k < |l.worlds|
    ensures l.worlds[g] <= l.worlds[k]
  {
    if g < k {
      WorldsGrow(l, g, k - 1);
      assert ForkAt(l, k - 1);
    }
  }

  lemma FormInWorld(l: Line, g: nat, k: nat, e: Engine)
    requires ForkLine(l) && g <= k < |l.worlds| && e in Engines(l.modules)
    ensures Form(l, g, e) in l.worlds[k]
  {
    WorldsGrow(l, g, k);
    assert Settled(l.processes[g], Engines(l.modules), l.worlds[g]);
  }

  /** A form is the registered engine itself, or new to the fork that made it. */
  lemma NewForm(l: Line, k: nat, e: Engine)
    requires ForkLine(l) && k < |l.forks| && e in Engines(l.modules)
    ensures if TakenAt(l, k, e) then Form(l, k + 1, e) !in l.worlds[k] else Form(l, k + 1, e) == e
  {
    assert ForkAt(l, k);
    LookupFinds(l.forks[k], Form(l, k, e));
  }

  lemma NewRoot(l: Line, k: nat)
    requires ForkLine(l) && k < |l.forks|
    ensures l.processes[k + 1].engine !in l.worlds[k]
  {
    assert ForkAt(l, k);
    LookupFinds(l.forks[k], l.processes[k].engine);
  }

  /** Forms of different engines differ, across all generations. */
  lemma FormsApart(l: Line, g: nat, e: Engine, k: nat, f: Engine)
    requires ForkLine(l) && g <= k < |l.processes| && e in Engines(l.modules) && f in Engines(l.modules)
    requires Form(l, g, e) == Form(l, k, f)
    ensures e == f
  {
    assert Settled(l.processes[g], Engines(l.modules), l.worlds[g]);
    if g < k {
      NewForm(l, k - 1, f);
      FormInWorld(l, g, k - 1, e);
    }
  }

  // ---- what each fork binds ---------------------------------------------------------

  /** The engines a fork binds: the root and forms of registered engines, all there before. */
  lemma SourceIsForm(l: Line, k: nat, x: Engine)
    requires ForkLine(l) && k < |l.forks|
    ensures Lookup(l.forks[k], x).Some? ==>
              && x in l.worlds[k]
              && (x == l.processes[k].engine || exists f :: f in Engines(l.modules) && Form(l, k, f) == x)
  {
    LookupFinds(l.forks[k], x);
    assert ForkAt(l, k) && Settled(l.processes[k], Engines(l.modules), l.worlds[k]);
    if Lookup(l.forks[k], x).Some? && x != l.processes[k].engine {
      var f :| f in Engines(l.modules) && Resolve(l.processes[k], f) == x;
      assert Form(l, k, f) == x;
    }
  }

  /** A fork binds a form of an engine only if that is its current form. */
  lemma OnlyCurrent(l: Line, g: nat, k: nat, e: Engine)
    requires ForkLine(l) && g <= k < |l.forks| && e in Engines(l.modules)
    ensures Lookup(l.forks[k], Form(l, g, e)).Some? ==> Form(l, g, e) == Form(l, k, e)
  {
    var x := Form(l, g, e);
    if g < k {
      SourceIsForm(l, k, x);
      NewRoot(l, k - 1);
      FormInWorld(l, g, k - 1, e);
      if f :| f in Engines(l.modules) && Form(l, k, f) == x {
        FormsApart(l, g, e, k, f);
      }
    }
  }

  /** The same for a registered engine itself. */
  lemma OnlyCurrentSelf(l: Line, k: nat, e: Engine)
    requires ForkLine(l) && k < |l.forks| && e in Engines(l.modules)
    ensures Lookup(l.forks[k], e).Some? ==> Form(l, k, e) == e
  {
    SourceIsForm(l, k, e);
    assert Settled(l.processes[k], Engines(l.modules), l.worlds[k]);
  }

  // ---- what the composed bindings answer --------------------------------------------

  lemma LineDistinct(l: Line, n: nat)
    requires ForkLine(l) && n <= |l.forks|
    ensures EachDistinct(l.forks[..n]) && DistinctSources(AfterForks(l.forks[..n]))
  {
    forall k | 0 <= k < n
      ensures DistinctSources(l.forks[..n][k])
    {
      assert ForkAt(l, k);
    }
    AfterForksDistinct(l.forks[..n]);
  }

  /** What one more fork makes of the composed bindings. */
  lemma AfterNext(l: Line, n: nat, x: Engine)
    requires ForkLine(l) && n < |l.forks|
    ensures Lookup(AfterForks(l.forks[..n + 1]), x) ==
            (if Lookup(l.forks[n], x).Some? then Lookup(l.forks[n], x)
             else match Lookup(AfterForks(l.forks[..n]), x)
                  case Some(m) => Lookup(l.forks[n], m)
                  case None => None)
  {
    assert l.forks[..n + 1][..n] == l.forks[..n] && l.forks[..n + 1][n] == l.forks[n];
    LineDistinct(l, n);
    ComposedLookup(l.forks[n], AfterForks(l.forks[..n]), x);
  }

  lemma NewUnbound(l: Line, n: nat, x: Engine)
    requires ForkLine(l) && n < |l.forks| && x !in l.worlds[n]
    ensures Lookup(AfterForks(l.forks[..n + 1]), x).None?
  {
    LineDistinct(l, n + 1);
    var forks := l.forks[..n + 1];
    forall k | 0 <= k < |forks|
      ensures Lookup(forks[k], x).None?
    {
      WorldsGrow(l, k, n);
      SourceIsForm(l, k, x);
    }
    OthersUnbound(forks, x);
  }

  /** A registered engine is bound to its current form or, if it is that itself, not at all. */
  lemma {:induction false} SelfBound(l: Line, e: Engine, n: nat)
    requires ForkLine(l) && e in Engines(l.modules) && n <= |l.forks|
    ensures Lookup(AfterForks(l.forks[..n]), e).Some? ==>
              Lookup(AfterForks(l.forks[..n]), e) == Some(Form(l, n, e)) && Form(l, n, e) != e
  {
    if n > 0 {
      SelfBound(l, e, n - 1);
      AfterNext(l, n - 1, e);
      OnlyCurrentSelf(l, n - 1, e);
      NewForm(l, n - 1, e);
      assert ForkAt(l, n - 1) && Settled(l.processes[n - 1], Engines(l.modules), l.worlds[n - 1]);
    }
  }

  /** The current form of an engine is bound to nothing. */
  lemma CurrentUnbound(l: Line, e: Engine, n: nat)
    requires ForkLine(l) && e in Engines(l.modules) && n <= |l.forks|
    ensures Lookup(AfterForks(l.forks[..n]), Form(l, n, e)).None?
  {
    if n > 0 {
      NewForm(l, n - 1, e);
      if TakenAt(l, n - 1, e) {
        NewUnbound(l, n - 1, Form(l, n, e));
      } else {
        SelfBound(l, e, n);
      }
    }
  }

  /** A fork that takes an engine makes a form that no process had. */
  lemma FormMoves(l: Line, e: Engine, g: nat, n: nat)
    requires ForkLine(l) && e in Engines(l.modules) && g <= n < |l.forks|
    ensures if TakenAt(l, n, e) then Form(l, g, e) != Form(l, n + 1, e) else Form(l, n + 1, e) == e
  {
    NewForm(l, n, e);
    FormInWorld(l, g, n, e);
  }

  lemma CurrentMoves(l: Line, e: Engine, n: nat)
    requires ForkLine(l) && e in Engines(l.modules) && n < |l.forks|
    ensures Lookup(l.forks[n], Form(l, n, e)) == if TakenAt(l, n, e) then Some(Form(l, n + 1, e)) else None
  {
    assert ForkAt(l, n);
  }

  lemma KeptNext(l: Line, e: Engine, g: nat, n: nat)
    requires g <= n < |l.processes| && n < |l.pids|
    ensures Kept(l, e, g, n + 1) <==> Kept(l, e, g, n) && TakenAt(l, n, e)
  {
  }

  /** The engine's form in process `g` leads to the one in process `n`: every fork between
      took it, or process `g` used the registered engine itself. */
  ghost predicate Follows(l: Line, e: Engine, g: nat, n: nat)
    requires g < |l.processes| && n <= |l.processes| && n <= |l.pids|
  {
    Kept(l, e, g, n) || Form(l, g, e) == e
  }

  /** The composed bindings of the first `n` forks, on every earlier form of every engine. */
  lemma {:induction false} BoundForms(l: Line, e: Engine, g: nat, n: nat)
    requires ForkLine(l) && e in Engines(l.modules) && g <= n <= |l.forks|
    ensures Lookup(AfterForks(l.forks[..n]), Form(l, g, e)) ==
            if Form(l, g, e) != Form(l, n, e) && Follows(l, e, g, n) then Some(Form(l, n, e)) else None
    decreases n
  {
    if g == n {
      CurrentUnbound(l, e, n);
    } else {
      BoundForms(l, e, g, n - 1);
      AfterNext(l, n - 1, Form(l, g, e));
      OnlyCurrent(l, g, n - 1, e);
      FormMoves(l, e, g, n - 1);
      if g < n - 1 {
        FormMoves(l, e, g, n - 2);
      }
      CurrentMoves(l, e, n - 1);
      KeptNext(l, e, g, n - 1);
    }
  }

  /** `exec_clone_resolve`. */
  ghost function CloneResolve(caller: Engine, e: Engine): Engine
    reads caller
  {
    Mapped(caller.bindings, e)
  }

  /** An engine of the last process resolves the form that process `g` used for a registered
      engine to the form of the last process, if and only if every fork since process `g` took
      the engine or process `g` used the registered engine itself. */
  ghost predicate ResolvesForms(l: Line, caller: Engine)
    requires |l.processes| == |l.forks| + 1 && |l.forks| <= |l.pids|
    reads caller
  {
    forall e, g :: e in Engines(l.modules) && 0 <= g <= |l.forks| ==>
      (CloneResolve(caller, Form(l, g, e)) == Form(l, |l.forks|, e) <==> Follows(l, e, g, |l.forks|))
  }

  lemma NestedForks(l: Line, caller: Engine)
    requires ForkLine(l) && caller.bindings == AfterForks(l.forks)
    ensures ResolvesForms(l, caller)
  {
    assert l.forks[..|l.forks|] == l.forks;
    forall e, g | e in Engines(l.modules) && 0 <= g <= |l.forks|
      ensures CloneResolve(caller, Form(l, g, e)) == Form(l, |l.forks|, e) <==> Follows(l, e, g, |l.forks|)
    {
      BoundForms(l, e, g, |l.forks|);
      StillCurrent(l, e, g);
    }
  }

  lemma StillCurrent(l: Line, e: Engine, g: nat)
    requires ForkLine(l) && e in Engines(l.modules) && g <= |l.forks|
    ensures Form(l, g, e) == Form(l, |l.forks|, e) ==> Follows(l, e, g, |l.forks|)
  {
    if g < |l.forks| {
      FormMoves(l, e, g, |l.forks| - 1);
    }
  }

  // ---- forking along a line ---------------------------------------------------------

  lemma LineGrows(l: Line, child: Capsule, bindings: seq<Binding<Engine>>)
    requires ForkLine(l) && |l.forks| < |l.pids|
    requires var n := |l.forks|;
             && GraphCloned(bindings, l.worlds[n])
             && Matched(l.processes[n], child, Registered(l.modules, l.pids[n]), bindings)
    ensures ForkLine(Extended(l, child, bindings))
  {
    var n := |l.forks|;
    var parent, pid, world := l.processes[n], l.pids[n], l.worlds[n];
    ForkLeadsOut(parent, child, bindings, l.modules, pid, world);
    ForkMoves(parent, child, bindings, l.modules, pid);
    ChildSettled(parent, child, bindings, l.modules, pid, world);
    var more := Extended(l, child, bindings);
    forall g | 0 <= g < |more.forks|
      ensures ForkAt(more, g)
    {
      if g < n {
        assert ForkAt(l, g);
      }
    }
  }

  ghost function Extended(l: Line, child: Capsule, bindings: seq<Binding<Engine>>): Line
    requires |l.worlds| > 0
  {
    l.(processes := l.processes + [child], forks := l.forks + [bindings],
       worlds := l.worlds + [l.worlds[|l.worlds| - 1] + Clones(bindings)])
  }

  /** A clone's bindings are those of its source, carried on. */
  lemma CarriesBindings(bindings: seq<Binding<Engine>>, world: set<Engine>, source: Engine, clone: Engine)
    requires GraphCloned(bindings, world) && Lookup(bindings, source) == Some(clone)
    ensures clone.bindings == Composed(bindings, source.bindings)
  {
    LookupFinds(bindings, source);
    var j :| 0 <= j < |bindings| && bindings[j].source == source;
    LookupAt(bindings, j);
    assert Bound(bindings[j].clone, bindings[j].source, bindings);
  }

  ghost function Members(l: Line, m: nat): set<Engine>
    requires m < |l.processes|
  {
    {l.processes[m].engine} + set e | e in Engines(l.modules) :: Form(l, m, e)
  }

  /** The root of process `m`, and the engines that every fork so far took, carry the composed
      bindings of all these forks. */
  ghost predicate Inherits(l: Line, m: nat)
    requires m < |l.processes| && m <= |l.forks| && m <= |l.pids|
    reads Members(l, m)
  {
    && l.processes[m].engine.bindings == AfterForks(l.forks[..m])
    && forall e :: e in Engines(l.modules) && Kept(l, e, 0, m) ==> Form(l, m, e).bindings == AfterForks(l.forks[..m])
  }

  ghost predicate AllInherit(l: Line)
    requires |l.processes| == |l.forks| + 1 && |l.forks| <= |l.pids|
    reads set m, e | 0 <= m < |l.processes| && e in Members(l, m) :: e
  {
    forall m :: 0 <= m < |l.processes| ==> Inherits(l, m)
  }

  lemma InheritsStill(l: Line, child: Capsule, bindings: seq<Binding<Engine>>, m: nat)
    requires ForkLine(l) && |l.forks| < |l.pids| && m < |l.processes| && Inherits(l, m)
    ensures Inherits(Extended(l, child, bindings), m)
  {
    var more := Extended(l, child, bindings);
    assert more.forks[..m] == l.forks[..m] && more.processes[m] == l.processes[m];
    forall e | e in Engines(l.modules) && Kept(more, e, 0, m)
      ensures Kept(l, e, 0, m)
    {
      assert forall k :: 0 <= k < m ==> TakenAt(more, k, e) == TakenAt(l, k, e);
    }
  }

  lemma InheritsNext(l: Line, child: Capsule, bindings: seq<Binding<Engine>>)
    requires ForkLine(l) && |l.forks| < |l.pids| && Inherits(l, |l.forks|)
    requires GraphCloned(bindings, l.worlds[|l.forks|]) && ForkLine(Extended(l, child, bindings))
    ensures Inherits(Extended(l, child, bindings), |l.forks| + 1)
  {
    var n, more := |l.forks|, Extended(l, child, bindings);
    assert more.forks[..n + 1] == more.forks && more.forks[..n] == l.forks[..n] == l.forks;
    assert ForkAt(more, n);
    CarriesBindings(bindings, l.worlds[n], l.processes[n].engine, child.engine);
    forall e | e in Engines(l.modules) && Kept(more, e, 0, n + 1)
      ensures Form(more, n + 1, e).bindings == AfterForks(more.forks)
    {
      InheritsStill(l, child, bindings, n);
      KeptNext(more, e, 0, n);
      CurrentMoves(more, e, n);
      CarriesBindings(bindings, l.worlds[n], Form(more, n, e), Form(more, n + 1, e));
    }
  }

  /** The engines of the last process that have been in every fork. */
  lemma LastResolves(l: Line)
    requires ForkLine(l) && AllInherit(l)
    ensures ResolvesForms(l, l.processes[|l.forks|].engine)
    ensures forall e :: e in Engines(l.modules) && Kept(l, e, 0, |l.forks|) ==> ResolvesForms(l, Form(l, |l.forks|, e))
  {
    assert l.forks[..|l.forks|] == l.forks && Inherits(l, |l.forks|);
    NestedForks(l, l.processes[|l.forks|].engine);
    forall e | e in Engines(l.modules) && Kept(l, e, 0, |l.forks|)
      ensures ResolvesForms(l, Form(l, |l.forks|, e))
    {
      NestedForks(l, Form(l, |l.forks|, e));
    }
  }

  lemma MembersInWorld(l: Line, m: nat)
    requires ForkLine(l) && m < |l.processes|
    ensures Members(l, m) <= l.worlds[|l.forks|]
  {
    WorldsGrow(l, m, |l.forks|);
    assert Settled(l.processes[m], Engines(l.modules), l.worlds[m]);
  }

  lemma NextInherits(l: Line, child: Capsule, bindings: seq<Binding<Engine>>)
    requires ForkLine(l) && |l.forks| < |l.pids| && AllInherit(l)
    requires GraphCloned(bindings, l.worlds[|l.forks|])
    requires Matched(l.processes[|l.forks|], child, Registered(l.modules, l.pids[|l.forks|]), bindings)
    ensures ForkLine(Extended(l, child, bindings)) && AllInherit(Extended(l, child, bindings))
  {
    LineGrows(l, child, bindings);
    forall m | 0 <= m < |l.processes|
      ensures Inherits(Extended(l, child, bindings), m)
    {
      InheritsStill(l, child, bindings, m);
    }
    InheritsNext(l, child, bindings);
  }

  /** One more fork at the end of a line. */
  method ForkNext(parent: Capsule, pid: int, modules: seq<Module>, room: nat, ghost l: Line)
    returns (ok: bool, child: Capsule, bindings: seq<Binding<Engine>>)
    requires ForkLine(l) && |l.forks| < |l.pids| && WellLinked(l.worlds[|l.forks|]) && AllInherit(l)
    requires parent == l.processes[|l.forks|] && pid == l.pids[|l.forks|] && modules == l.modules
    ensures AllInherit(l) && (room >= 2 * |modules| + 2 ==> ok)
    ensures ok ==> ForkLine(Extended(l, child, bindings)) && AllInherit(Extended(l, child, bindings))
    ensures ok ==> WellLinked(l.worlds[|l.forks|] + Clones(bindings))
  {
    assert Settled(parent, Engines(modules), l.worlds[|l.forks|]);
    assert forall e :: e in Registered(modules, pid) ==> e in Engines(modules);
    ok, child, bindings := ForkGraph(parent, pid, modules, room, l.worlds[|l.forks|]);
    forall m | 0 <= m < |l.processes|
      ensures Inherits(l, m)
    {
      MembersInWorld(l, m);
      assert old(Inherits(l, m));
    }
    if ok {
      NextInherits(l, child, bindings);
      ChildWellLinked(bindings, l.worlds[|l.forks|]);
    }
  }

  /** Process after process forks, as far as memory goes: each fork can make `room` allocations. */
  method ForkAlong(first: Capsule, modules: seq<Module>, pids: seq<int>, room: nat, ghost world: set<Engine>)
    returns (ok: bool, processes: seq<Capsule>, forks: seq<seq<Binding<Engine>>>, ghost l: Line)
    requires WellLinked(world) && Settled(first, Engines(modules), world)
    requires forall e :: e in world ==> e.bindings == []
    ensures l == Line(processes, forks, modules, pids, l.worlds) && ForkLine(l) && l.processes[0] == first
    ensures (ok ==> |forks| == |pids|) && (room >= 2 * |modules| + 2 ==> ok)
    ensures WellLinked(l.worlds[|forks|]) && AllInherit(l)
    ensures ResolvesForms(l, processes[|forks|].engine)
    ensures forall e :: e in Engines(modules) && Kept(l, e, 0, |forks|) ==> ResolvesForms(l, Form(l, |forks|, e))
  {
    ok, processes, forks := true, [first], [];
    l := Line(processes, forks, modules, pids, [world]);
    assert Inherits(l, 0);
    var i := 0;
    while i < |pids|
      invariant 0 <= i <= |pids| && |forks| == i && ok
      invariant l == Line(processes, forks, modules, pids, l.worlds) && ForkLine(l) && l.processes[0] == first
      invariant WellLinked(l.worlds[i]) && AllInherit(l)
    {
      var child, bindings;
      ok, child, bindings := ForkNext(processes[i], pids[i], modules, room, l);
      if !ok {
        break;
      }
      l := Extended(l, child, bindings);
      processes, forks := processes + [child], forks + [bindings];
      i := i + 1;
    }
    LastResolves(l);
  }

  /** A module that only process 1 can see is lost to the grandchild: the child has a copy of
      it, and the grandchild neither gets a copy of that nor resolves it to anything else. */
  method PrivateModuleLost() returns (child: Capsule, grandchild: Capsule, private: Engine)
    ensures Resolve(child, private) != private && Resolve(grandchild, private) == private
    ensures CloneResolve(grandchild.engine, Resolve(child, private)) == Resolve(child, private)
  {
    var root := new Engine.Empty();
    private := new Engine.Empty();
    var first := Capsule(root, None, [], []);
    var modules := [Module(private, 1)];
    PrivateOnly(private, first);
    var ok, processes, forks;
    ghost var l;
    ok, processes, forks, l := ForkAlong(first, modules, [1, 2], 4, {root, private});
    child, grandchild := processes[1], processes[2];
    PrivateForms(l, private);
    assert Inherits(l, 2) && forks[..2] == forks;
  }

  lemma PrivateOnly(private: Engine, first: Capsule)
    requires first.engine != private && first == Capsule(first.engine, None, [], [])
    ensures Engines([Module(private, 1)]) == {private} && Settled(first, {private}, {first.engine, private})
  {
    assert Module(private, 1) in [Module(private, 1)];
  }

  lemma PrivateForms(l: Line, private: Engine)
    requires ForkLine(l) && |l.forks| == 2 && l.modules == [Module(private, 1)] && l.pids == [1, 2]
    requires l.processes[0] == Capsule(l.processes[0].engine, None, [], []) && l.processes[0].engine != private
    ensures Form(l, 1, private) != private && Form(l, 2, private) == private
    ensures Lookup(AfterForks(l.forks), Form(l, 1, private)).None?
  {
    PrivateOnly(private, l.processes[0]);
    assert Settled(l.processes[0], {private}, l.worlds[0]) && ForkAt(l, 0);
    assert l.modules[0] in l.modules && TakenAt(l, 0, private) && !TakenAt(l, 1, private);
    NewForm(l, 0, private);
    NewForm(l, 1, private);
    assert l.forks[..2] == l.forks;
    BoundForms(l, private, 1, 2);
  }
}
