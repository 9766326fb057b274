/** Fork's copy of the engine graph: `exec_clone_engine` and `exec_clone_engine_bind` of
    src/engine/instance.c, `rebind_imports` and `native_store_clone_process_graph` of
    src/engine/process.c.

    A memory, table or global that an engine defines lives inside that engine, so its
    address is the pair of the engine and a slot number. */
module EngineClone {
  import opened Bindings

  datatype Ref =
    | Slot(owner: Engine, index: nat) // an object defined by an engine
    | Outside(id: nat)                // an object of the host, the loader or the test provider

  /** The memories, tables or globals of an engine: first the imported ones, then its own. */
  datatype Links = Links(imports: nat, refs: seq<Ref>)

  datatype FuncRef = NullRef | FuncRef(owner: Engine, func: nat)

  datatype Kind = Memories | Tables | Globals

  class Engine {
    var memories: Links
    var tables: Links
    var globals: Links
    var memory: Option<Ref>              // the default-memory fast path
    var functions: seq<FuncRef>          // entries of its tables and element segments
    var bindings: seq<Binding<Engine>>

    /** An engine that defines and imports nothing. */
    constructor Empty()
      ensures memories == tables == globals == Links(0, []) && memory == None && functions == [] && bindings == []
    {
      memories, tables, globals := Links(0, []), Links(0, []), Links(0, []);
      memory, functions, bindings := None, [], [];
    }

    /** A struct copy. */
    constructor Copy(source: Engine)
      ensures memories == source.memories && tables == source.tables && globals == source.globals
      ensures memory == source.memory && functions == source.functions && bindings == source.bindings
    {
      memories, tables, globals := source.memories, source.tables, source.globals;
      memory, functions, bindings := source.memory, source.functions, source.bindings;
    }

    function Get(kind: Kind): Links
      reads this
    {
      match kind
      case Memories => memories
      case Tables => tables
      case Globals => globals
    }
  }

  // ---- cloning one engine -------------------------------------------------------

  ghost function Own(links: Links, owner: Engine): Links {
    Links(links.imports, seq(|links.refs|, i requires 0 <= i < |links.refs| =>
      if i < links.imports then links.refs[i] else Slot(owner, i)))
  }

  /** Point the defined slots at the new owner's storage. */
  method OwnSlots(links: Links, owner: Engine) returns (r: Links)
    ensures r == Own(links, owner)
  {
    r := links;
    var i := links.imports;
    while i < |links.refs|
      invariant links.imports <= i && r.imports == links.imports && |r.refs| == |links.refs|
      invariant forall k :: 0 <= k < |r.refs| ==>
                  r.refs[k] == if links.imports <= k < i then Slot(owner, k) else links.refs[k]
    {
      r := r.(refs := r.refs[i := Slot(owner, i)]);
      i := i + 1;
    }
    assert r.refs == Own(links, owner).refs;
  }

  /** What a function reference of `source` becomes in `clone`: the same function, of `clone` if it
      was one of `source`. */
  ghost predicate SameFunction(now: FuncRef, was: FuncRef, source: Engine, clone: Engine) {
    if was.NullRef? then now.NullRef?
    else now.FuncRef? && now.func == was.func && now.owner == if was.owner == source then clone else was.owner
  }

  ghost predicate SameFunctions(now: seq<FuncRef>, was: seq<FuncRef>, source: Engine, clone: Engine) {
    |now| == |was| && forall i :: 0 <= i < |was| ==> SameFunction(now[i], was[i], source, clone)
  }

  method RedirectFunctions(fs: seq<FuncRef>, source: Engine, clone: Engine) returns (r: seq<FuncRef>)
    ensures SameFunctions(r, fs, source, clone)
  {
    r := fs;
    var i := 0;
    while i < |fs|
      invariant 0 <= i <= |fs| == |r|
      invariant forall k :: 0 <= k < i ==> SameFunction(r[k], fs[k], source, clone)
      invariant forall k :: i <= k < |fs| ==> r[k] == fs[k]
    {
      if r[i].FuncRef? && r[i].owner == source {
        r := r[i := r[i].(owner := clone)];
      }
      i := i + 1;
    }
  }

  /** `clone` is what `exec_clone_engine` makes of `source`, before any rebinding. */
  ghost predicate Copied(clone: Engine, source: Engine)
    reads clone, source
  {
    && clone.memories == Own(source.memories, clone)
    && clone.tables == Own(source.tables, clone)
    && clone.globals == Own(source.globals, clone)
    && SameFunctions(clone.functions, source.functions, source, clone)
    && clone.bindings == source.bindings
    && clone.memory == if |source.memories.refs| > 0 && source.memory == Some(source.memories.refs[0])
                       then Some(clone.memories.refs[0]) else source.memory
  }

  /** `exec_clone_engine`; `room` says whether it can be allocated. */
  method CloneEngine(source: Engine, room: bool, ghost world: set<Engine>) returns (ok: bool, clone: Engine)
    ensures ok == room && (ok ==> fresh(clone) && Copied(clone, source) && Unmentioned(clone, world))
  {
    clone := source; // not used on failure
    ok := room;
    if ok {
      clone := new Engine.Copy(source);
      clone.globals := OwnSlots(source.globals, clone);
      clone.memories := OwnSlots(source.memories, clone);
      clone.tables := OwnSlots(source.tables, clone);
      clone.functions := RedirectFunctions(source.functions, source, clone);
      if |source.memories.refs| > 0 && source.memory == Some(source.memories.refs[0]) {
        clone.memory := Some(clone.memories.refs[0]);
      }
    }
  }

  // ---- rebinding imports --------------------------------------------------------

  /** What a reference becomes in the child. */
  ghost function Renamed(ref: Ref, bindings: seq<Binding<Engine>>): Ref {
    if ref.Outside? then ref
    else match Lookup(bindings, ref.owner)
         case Some(clone) => Slot(clone, ref.index)
         case None => ref
  }

  /** Defined slots are the engine's own storage. */
  ghost predicate OwnSlotsOf(e: Engine, links: Links) {
    forall k :: links.imports <= k < |links.refs| ==> links.refs[k] == Slot(e, k)
  }

  ghost predicate Defines(e: Engine, kind: Kind, k: int)
    reads e
  {
    e.Get(kind).imports <= k < |e.Get(kind).refs|
  }

  /** A reference into `world` is to something its owner defines. */
  ghost predicate RefOk(ref: Ref, kind: Kind, world: set<Engine>)
    reads world
  {
    ref.Slot? && ref.owner in world ==> Defines(ref.owner, kind, ref.index)
  }

  ghost predicate LinksOk(e: Engine, kind: Kind, world: set<Engine>)
    reads e, world
  {
    && OwnSlotsOf(e, e.Get(kind))
    && forall i :: 0 <= i < |e.Get(kind).refs| ==> RefOk(e.Get(kind).refs[i], kind, world)
  }

  /** The parent's engines: what one imports from another is something the other defines. */
  ghost predicate WellLinked(world: set<Engine>)
    reads world
  {
    forall e, kind {:trigger LinksOk(e, kind, world)} :: e in world ==> LinksOk(e, kind, world)
  }

  /** A clone has the shape of its source, and both own what they define. */
  ghost predicate Twins(kind: Kind, b: Binding<Engine>)
    reads b.source, b.clone
  {
    var s, c := b.source.Get(kind), b.clone.Get(kind);
    && s.imports == c.imports && |s.refs| == |c.refs|
    && OwnSlotsOf(b.source, s) && OwnSlotsOf(b.clone, c)
  }

  /** The search of `rebind_imports` for one imported object. */
  method Rebind(ref: Ref, kind: Kind, bindings: seq<Binding<Engine>>) returns (r: Ref)
    requires forall j :: 0 <= j < |bindings| ==> Twins(kind, bindings[j])
    requires forall j :: 0 <= j < |bindings| && ref.Slot? && ref.owner == bindings[j].source ==>
               Defines(ref.owner, kind, ref.index)
    ensures r == Renamed(ref, bindings)
  {
    r := ref;
    var j := 0;
    while j < |bindings|
      invariant 0 <= j <= |bindings|
      invariant r == ref && Renamed(ref, bindings) == Renamed(ref, bindings[j..])
    {
      var provider := bindings[j].source.Get(kind);
      var k := provider.imports;
      while k < |provider.refs|
        invariant provider.imports <= k
        invariant forall m :: provider.imports <= m < k && m < |provider.refs| ==> provider.refs[m] != ref
      {
        if ref == provider.refs[k] {
          r := bindings[j].clone.Get(kind).refs[k];
          return;
        }
        k := k + 1;
      }
      assert bindings[j..][1..] == bindings[j + 1..];
      j := j + 1;
    }
  }

  ghost predicate ImportsRenamed(now: Links, was: Links, bindings: seq<Binding<Engine>>) {
    && now.imports == was.imports && |now.refs| == |was.refs|
    && forall i :: 0 <= i < |was.refs| && i < was.imports ==> now.refs[i] == Renamed(was.refs[i], bindings)
  }

  /** One of the three loops of `rebind_imports`. */
  method RebindLinks(kind: Kind, source: Links, clone: Links, bindings: seq<Binding<Engine>>,
                     ghost world: set<Engine>) returns (r: Links)
    requires clone.imports == source.imports && |clone.refs| == |source.refs|
    requires forall j :: 0 <= j < |bindings| ==> Twins(kind, bindings[j])
    requires forall j :: 0 <= j < |bindings| ==> bindings[j].source in world
    requires forall i :: 0 <= i < |source.refs| ==> RefOk(source.refs[i], kind, world)
    ensures ImportsRenamed(r, source, bindings)
    ensures forall i :: r.imports <= i < |r.refs| ==> r.refs[i] == clone.refs[i]
  {
    r := clone;
    var i := 0;
    while i < clone.imports && i < |clone.refs|
      invariant 0 <= i && r.imports == clone.imports && |r.refs| == |clone.refs|
      invariant forall k :: 0 <= k < i && k < |r.refs| && k < clone.imports ==>
                  r.refs[k] == Renamed(source.refs[k], bindings)
      invariant forall k :: clone.imports <= k < |r.refs| ==> r.refs[k] == clone.refs[k]
    {
      var ref := Rebind(source.refs[i], kind, bindings);
      r := r.(refs := r.refs[i := ref]);
      i := i + 1;
    }
  }

  ghost predicate LinksRenamed(now: Links, was: Links, bindings: seq<Binding<Engine>>) {
    && now.imports == was.imports && |now.refs| == |was.refs|
    && forall i :: 0 <= i < |was.refs| ==> now.refs[i] == Renamed(was.refs[i], bindings)
  }

  /** `clone` is fully bound: every reference of `source`, imported or defined, renamed. */
  ghost predicate Bound(clone: Engine, source: Engine, bindings: seq<Binding<Engine>>)
    reads clone, source
  {
    && LinksRenamed(clone.memories, source.memories, bindings)
    && LinksRenamed(clone.tables, source.tables, bindings)
    && LinksRenamed(clone.globals, source.globals, bindings)
    && clone.memory == (if |clone.memories.refs| > 0 then Some(clone.memories.refs[0]) else None)
    && clone.bindings == Composed(bindings, source.bindings)
    && SameFunctions(clone.functions, source.functions, source, clone)
  }

  /** One loop of `rebind_imports`, on a pair of `bindings`: every reference ends up renamed. */
  method RebindKind(kind: Kind, x: nat, source: Links, clone: Links, bindings: seq<Binding<Engine>>,
                    ghost world: set<Engine>) returns (r: Links)
    requires x < |bindings| && DistinctSources(bindings) && WellLinked(world)
    requires source == bindings[x].source.Get(kind) && clone == Own(source, bindings[x].clone)
    requires forall j :: 0 <= j < |bindings| ==> bindings[j].source in world
    requires forall j :: 0 <= j < |bindings| ==> Twins(kind, bindings[j])
    ensures LinksRenamed(r, source, bindings) && OwnSlotsOf(bindings[x].clone, r)
  {
    LookupAt(bindings, x);
    assert LinksOk(bindings[x].source, kind, world);
    r := RebindLinks(kind, source, clone, bindings, world);
    forall i | 0 <= i < |source.refs|
      ensures r.refs[i] == Renamed(source.refs[i], bindings)
    {
      if i >= source.imports {
        assert source.refs[i] == Slot(bindings[x].source, i);
        assert r.refs[i] == clone.refs[i] == Slot(bindings[x].clone, i);
      }
    }
  }

  ghost predicate AllTwins(bindings: seq<Binding<Engine>>)
    reads set b | b in bindings :: b.source, set b | b in bindings :: b.clone
  {
    forall kind, j {:trigger Twins(kind, bindings[j])} :: 0 <= j < |bindings| ==> Twins(kind, bindings[j])
  }

  /** `exec_clone_engine_bind` and `rebind_imports` on one pair. */
  method BindClone(x: nat, bindings: seq<Binding<Engine>>, ghost world: set<Engine>)
    requires x < |bindings| && DistinctSources(bindings) && WellLinked(world) && AllTwins(bindings)
    requires forall j :: 0 <= j < |bindings| ==> bindings[j].source in world && bindings[j].clone !in world
    requires Copied(bindings[x].clone, bindings[x].source)
    modifies bindings[x].clone
    ensures Bound(bindings[x].clone, bindings[x].source, bindings)
    ensures forall kind :: Twins(kind, bindings[x])
  {
    var memories, tables, globals := RebindAll(x, bindings, world);
    assert Twins(Memories, bindings[x]) && Twins(Tables, bindings[x]) && Twins(Globals, bindings[x]);
    Install(bindings[x].clone, bindings[x].source, bindings, memories, tables, globals);
  }

  /** The loops of `rebind_imports` on one pair. */
  method RebindAll(x: nat, bindings: seq<Binding<Engine>>, ghost world: set<Engine>)
    returns (memories: Links, tables: Links, globals: Links)
    requires x < |bindings| && DistinctSources(bindings) && WellLinked(world) && AllTwins(bindings)
    requires forall j :: 0 <= j < |bindings| ==> bindings[j].source in world
    requires Copied(bindings[x].clone, bindings[x].source)
    ensures LinksRenamed(memories, bindings[x].source.memories, bindings) && OwnSlotsOf(bindings[x].clone, memories)
    ensures LinksRenamed(tables, bindings[x].source.tables, bindings) && OwnSlotsOf(bindings[x].clone, tables)
    ensures LinksRenamed(globals, bindings[x].source.globals, bindings) && OwnSlotsOf(bindings[x].clone, globals)
  {
    var clone, source := bindings[x].clone, bindings[x].source;
    memories := RebindKind(Memories, x, source.memories, clone.memories, bindings, world);
    tables := RebindKind(Tables, x, source.tables, clone.tables, bindings, world);
    globals := RebindKind(Globals, x, source.globals, clone.globals, bindings, world);
  }

  /** Give a plain copy its bindings and its rebound links. */
  method Install(clone: Engine, source: Engine, bindings: seq<Binding<Engine>>, memories: Links, tables: Links,
                 globals: Links)
    requires clone != source && Copied(clone, source)
    requires LinksRenamed(memories, source.memories, bindings)
    requires LinksRenamed(tables, source.tables, bindings)
    requires LinksRenamed(globals, source.globals, bindings)
    modifies clone
    ensures Bound(clone, source, bindings)
    ensures clone.memories == memories && clone.tables == tables && clone.globals == globals
  {
    clone.bindings := Compose(bindings, clone.bindings);
    clone.memories, clone.tables, clone.globals := memories, tables, globals;
    clone.memory := if |clone.memories.refs| > 0 then Some(clone.memories.refs[0]) else None;
  }

  // ---- cloning the graph of a process ---------------------------------------------

  /** A registered module; owner 0 is shared by all processes. */
  datatype Module = Module(engine: Engine, ownerPid: int)

  /** The engines of a process: its root, the registered engine the root stands for, the
      private clones that stand for other registered engines, and the loaded libraries. */
  datatype Capsule = Capsule(engine: Engine, engineSource: Option<Engine>, linked: seq<Binding<Engine>>,
                             libraries: seq<Engine>)

  /** `native_process_capsule_resolve_engine`: the engine of this process for a registered one. */
  ghost function Resolve(c: Capsule, e: Engine): Engine {
    if c.engineSource == Some(e) then c.engine
    else match Lookup(c.linked, e)
         case Some(clone) => clone
         case None => e
  }

  /** The search of that function. */
  method ResolveEngine(c: Capsule, e: Engine) returns (r: Engine)
    ensures r == Resolve(c, e)
  {
    if c.engineSource == Some(e) {
      return c.engine;
    }
    var i := 0;
    while i < |c.linked|
      invariant 0 <= i <= |c.linked| && Lookup(c.linked, e) == Lookup(c.linked[i..], e)
    {
      if c.linked[i].source == e {
        return c.linked[i].clone;
      }
      assert c.linked[i..][1..] == c.linked[i + 1..];
      i := i + 1;
    }
    return e;
  }

  /** The registered engine that the root of a process stands for. */
  function RootSource(c: Capsule): Engine {
    if c.engineSource.Some? then c.engineSource.value else c.engine
  }

  /** Clones are new: distinct, outside the parent's world, and not mentioned in it. */
  ghost predicate NewClones(bindings: seq<Binding<Engine>>, world: set<Engine>)
    reads world
  {
    && (forall j :: 0 <= j < |bindings| ==> bindings[j].source in world && bindings[j].clone !in world)
    && (forall i, j :: 0 <= i < j < |bindings| ==> bindings[i].clone != bindings[j].clone)
    && (forall j :: 0 <= j < |bindings| ==> Unmentioned(bindings[j].clone, world))
  }

  /** No engine of `world` refers to `e`, to an object of it or to a function of it. */
  ghost predicate Unmentioned(e: Engine, world: set<Engine>)
    reads world
  {
    && (forall w, kind, i {:trigger w.Get(kind).refs[i]} :: w in world && 0 <= i < |w.Get(kind).refs| ==>
          w.Get(kind).refs[i].Slot? ==> w.Get(kind).refs[i].owner != e)
    && (forall w, i {:trigger w.functions[i]} :: w in world && 0 <= i < |w.functions| ==>
          w.functions[i].FuncRef? ==> w.functions[i].owner != e)
    && (forall w, i {:trigger w.bindings[i]} :: w in world && 0 <= i < |w.bindings| ==>
          w.bindings[i].source != e && w.bindings[i].clone != e)
  }

  /** The pairs collected so far, each clone still a plain copy. */
  ghost predicate Collected(parent: Capsule, root: Engine, bindings: seq<Binding<Engine>>,
                            linked: seq<Binding<Engine>>, world: set<Engine>)
    reads world, set b | b in bindings :: b.source, set b | b in bindings :: b.clone
  {
    && |bindings| == |linked| + 1 && bindings[0] == Binding(parent.engine, root)
    && DistinctSources(bindings) && NewClones(bindings, world)
    && (forall j :: 0 <= j < |bindings| ==> Copied(bindings[j].clone, bindings[j].source))
    && (forall j :: 0 <= j < |linked| ==>
          linked[j].clone == bindings[j + 1].clone && Resolve(parent, linked[j].source) == bindings[j + 1].source)
  }

  /** The registered engines that a process can see. */
  ghost function Registered(modules: seq<Module>, pid: int): set<Engine> {
    set m | m in modules && (m.ownerPid == 0 || m.ownerPid == pid) :: m.engine
  }

  /** Every registered engine the parent can see has its private form among the sources. */
  ghost predicate Covered(parent: Capsule, registered: set<Engine>, bindings: seq<Binding<Engine>>) {
    forall e :: e in registered ==> Lookup(bindings, Resolve(parent, e)).Some?
  }

  /** The first loop of `native_store_clone_process_graph`; `room` is how many allocations
      succeed. */
  method CollectClones(parent: Capsule, pid: int, root: Engine, modules: seq<Module>, room: nat,
                       ghost world: set<Engine>)
    returns (ok: bool, bindings: seq<Binding<Engine>>, linked: seq<Binding<Engine>>, left: nat)
    requires parent.engine in world && root !in world && Unmentioned(root, world) && Copied(root, parent.engine)
    requires forall e :: e in Registered(modules, pid) ==> Resolve(parent, e) in world
    ensures ok ==>
              Collected(parent, root, bindings, linked, world) && Covered(parent, Registered(modules, pid), bindings)
    ensures ok ==> forall j :: 0 <= j < |linked| ==> linked[j].source in Registered(modules, pid)
    ensures forall j :: 0 < j < |bindings| ==> fresh(bindings[j].clone)
    ensures (room >= |modules| ==> ok) && (ok ==> left == room - |linked| && |linked| <= |modules|)
  {
    ok, bindings, linked, left := true, [Binding(parent.engine, root)], [], room;
    var i := 0;
    while i < |modules|
      invariant 0 <= i <= |modules| && |linked| <= i && left == room - |linked|
      invariant Collected(parent, root, bindings, linked, world)
      invariant Covered(parent, Registered(modules[..i], pid), bindings)
      invariant forall j :: 0 <= j < |linked| ==> linked[j].source in Registered(modules, pid)
      invariant forall j :: 0 < j < |bindings| ==> fresh(bindings[j].clone)
    {
      ok, bindings, linked, left := CollectNext(parent, pid, root, modules, i, bindings, linked, left, world);
      if !ok {
        return;
      }
      i := i + 1;
    }
    assert modules[..i] == modules;
  }

  /** The body of that loop: a module is passed over if it belongs to another process. */
  method CollectNext(parent: Capsule, pid: int, root: Engine, modules: seq<Module>, i: nat,
                     bindings: seq<Binding<Engine>>, linked: seq<Binding<Engine>>, room: nat, ghost world: set<Engine>)
    returns (ok: bool, bindings': seq<Binding<Engine>>, linked': seq<Binding<Engine>>, left: nat)
    requires i < |modules| && Collected(parent, root, bindings, linked, world)
    requires Covered(parent, Registered(modules[..i], pid), bindings)
    requires forall e :: e in Registered(modules, pid) ==> Resolve(parent, e) in world
    ensures bindings <= bindings' && forall j :: |bindings| <= j < |bindings'| ==> fresh(bindings'[j].clone)
    ensures ok ==>
              && Collected(parent, root, bindings', linked', world)
              && Covered(parent, Registered(modules[..i + 1], pid), bindings')
    ensures linked <= linked' && |linked'| <= |linked| + 1
    ensures forall j :: |linked| <= j < |linked'| ==> linked'[j].source in Registered(modules, pid)
    ensures (room > 0 ==> ok) && left == room - (|linked'| - |linked|)
  {
    RegisteredNext(modules, i, pid);
    ok, bindings', linked', left := true, bindings, linked, room;
    if modules[i].ownerPid != 0 && modules[i].ownerPid != pid {
      return;
    }
    ok, bindings', linked', left := AddClone(parent, root, modules[i].engine, bindings, linked, room, world);
    if ok {
      CoveredGrows(parent, Registered(modules[..i], pid), bindings, bindings');
    }
  }

  /** One registered engine of that loop: clone its private form unless that is done. */
  method AddClone(parent: Capsule, root: Engine, canonical: Engine, bindings: seq<Binding<Engine>>,
                  linked: seq<Binding<Engine>>, room: nat, ghost world: set<Engine>)
    returns (ok: bool, bindings': seq<Binding<Engine>>, linked': seq<Binding<Engine>>, left: nat)
    requires Collected(parent, root, bindings, linked, world) && Resolve(parent, canonical) in world
    ensures bindings <= bindings' && forall j :: |bindings| <= j < |bindings'| ==> fresh(bindings'[j].clone)
    ensures ok ==> Collected(parent, root, bindings', linked', world)
    ensures ok ==> Lookup(bindings', Resolve(parent, canonical)).Some?
    ensures || linked' == linked
            || (|linked'| == |linked| + 1 && linked <= linked' && linked'[|linked|].source == canonical)
    ensures (room > 0 ==> ok) && left == room - (|linked'| - |linked|)
  {
    ok, bindings', linked', left := true, bindings, linked, room;
    var source, seen := FindForm(parent, canonical, root, bindings, linked, world);
    if !seen {
      ok := room > 0;
      if ok {
        bindings', linked' := AddForm(parent, root, canonical, source, bindings, linked, world);
        left := room - 1;
      }
    }
  }

  /** The form of an engine in the process, and whether it was cloned before. */
  method FindForm(parent: Capsule, canonical: Engine, ghost root: Engine, bindings: seq<Binding<Engine>>,
                  ghost linked: seq<Binding<Engine>>, ghost world: set<Engine>)
    returns (source: Engine, seen: bool)
    requires Collected(parent, root, bindings, linked, world)
    ensures Collected(parent, root, bindings, linked, world)
    ensures source == Resolve(parent, canonical) && seen == Lookup(bindings, source).Some?
  {
    source := ResolveEngine(parent, canonical);
    var clone := FindSource(bindings, source);
    seen := clone.Some?;
  }

  method AddForm(ghost parent: Capsule, ghost root: Engine, canonical: Engine, source: Engine,
                 bindings: seq<Binding<Engine>>, linked: seq<Binding<Engine>>, ghost world: set<Engine>)
    returns (bindings': seq<Binding<Engine>>, linked': seq<Binding<Engine>>)
    requires Collected(parent, root, bindings, linked, world)
    requires source == Resolve(parent, canonical) && source in world && Lookup(bindings, source).None?
    ensures |bindings'| == |bindings| + 1 && bindings <= bindings' && fresh(bindings'[|bindings|].clone)
    ensures |linked'| == |linked| + 1 && linked <= linked' && linked'[|linked|].source == canonical
    ensures Collected(parent, root, bindings', linked', world) && Lookup(bindings', source).Some?
  {
    var _, clone := CloneForm(parent, root, source, bindings, linked, true, world);
    CollectedGrows(parent, root, canonical, clone, bindings, linked, world);
    bindings', linked' := bindings + [Binding(source, clone)], linked + [Binding(canonical, clone)];
  }

  /** Clone an engine beside what was collected so far. */
  method CloneForm(ghost parent: Capsule, ghost root: Engine, source: Engine, ghost bindings: seq<Binding<Engine>>,
                   ghost linked: seq<Binding<Engine>>, room: bool, ghost world: set<Engine>)
    returns (ok: bool, clone: Engine)
    requires Collected(parent, root, bindings, linked, world)
    ensures Collected(parent, root, bindings, linked, world)
    ensures ok == room
    ensures ok ==> fresh(clone) && Copied(clone, source) && Unmentioned(clone, world) && clone !in world
    ensures ok ==> forall j :: 0 <= j < |bindings| ==> bindings[j].clone != clone
  {
    ok, clone := CloneEngine(source, room, world);
  }

  lemma CollectedGrows(parent: Capsule, root: Engine, canonical: Engine, clone: Engine, bindings: seq<Binding<Engine>>,
                       linked: seq<Binding<Engine>>, world: set<Engine>)
    requires Collected(parent, root, bindings, linked, world) && Resolve(parent, canonical) in world
    requires Lookup(bindings, Resolve(parent, canonical)).None? && Copied(clone, Resolve(parent, canonical))
    requires clone !in world && Unmentioned(clone, world)
    requires forall j :: 0 <= j < |bindings| ==> bindings[j].clone != clone
    ensures Collected(parent, root, bindings + [Binding(Resolve(parent, canonical), clone)],
                      linked + [Binding(canonical, clone)], world)
    ensures Lookup(bindings + [Binding(Resolve(parent, canonical), clone)], Resolve(parent, canonical)).Some?
  {
    var source := Resolve(parent, canonical);
    var more, linked' := bindings + [Binding(source, clone)], linked + [Binding(canonical, clone)];
    assert DistinctSources(more) && Lookup(more, source).Some? by {
      LookupFinds(bindings, source);
      LookupAppend(bindings, [Binding(source, clone)], source);
    }
    assert NewClones(more, world) by {
      ClonesGrow(bindings, Binding(source, clone), world);
    }
    forall j | 0 <= j < |more|
      ensures Copied(more[j].clone, more[j].source)
    {
    }
    LinkedGrows(parent, canonical, clone, bindings, linked);
  }

  lemma LinkedGrows(parent: Capsule, canonical: Engine, clone: Engine, bindings: seq<Binding<Engine>>,
                    linked: seq<Binding<Engine>>)
    requires |bindings| == |linked| + 1
    requires forall j :: 0 <= j < |linked| ==>
               linked[j].clone == bindings[j + 1].clone && Resolve(parent, linked[j].source) == bindings[j + 1].source
    ensures var more := bindings + [Binding(Resolve(parent, canonical), clone)];
            var linked' := linked + [Binding(canonical, clone)];
            forall j :: 0 <= j < |linked'| ==>
              linked'[j].clone == more[j + 1].clone && Resolve(parent, linked'[j].source) == more[j + 1].source
  {
  }

  lemma ClonesGrow(bindings: seq<Binding<Engine>>, b: Binding<Engine>, world: set<Engine>)
    requires NewClones(bindings, world) && b.source in world && b.clone !in world && Unmentioned(b.clone, world)
    requires forall j :: 0 <= j < |bindings| ==> bindings[j].clone != b.clone
    ensures NewClones(bindings + [b], world)
  {
  }

  lemma RegisteredNext(modules: seq<Module>, i: nat, pid: int)
    requires i < |modules|
    ensures Registered(modules[..i + 1], pid) ==
            Registered(modules[..i], pid)
            + if modules[i].ownerPid == 0 || modules[i].ownerPid == pid then {modules[i].engine} else {}
    ensures modules[i].ownerPid == 0 || modules[i].ownerPid == pid ==>
              modules[i].engine in Registered(modules, pid)
  {
    assert modules[..i + 1] == modules[..i] + [modules[i]];
    assert modules[i] in modules;
  }

  lemma CoveredGrows(parent: Capsule, registered: set<Engine>,
                     bindings: seq<Binding<Engine>>, more: seq<Binding<Engine>>)
    requires Covered(parent, registered, bindings) && bindings <= more
    ensures Covered(parent, registered, more)
  {
    var rest := more[|bindings|..];
    assert more == bindings + rest;
    forall e | e in registered
      ensures Lookup(more, Resolve(parent, e)).Some?
    {
      LookupAppend(bindings, rest, Resolve(parent, e));
    }
  }

  lemma CopiesAreTwins(bindings: seq<Binding<Engine>>, world: set<Engine>)
    requires WellLinked(world) && forall j :: 0 <= j < |bindings| ==> bindings[j].source in world
    requires forall j :: 0 <= j < |bindings| ==> Copied(bindings[j].clone, bindings[j].source)
    ensures AllTwins(bindings)
  {
    forall kind, j | 0 <= j < |bindings|
      ensures Twins(kind, bindings[j])
    {
      assert LinksOk(bindings[j].source, kind, world);
      assert bindings[j].clone.Get(kind) == Own(bindings[j].source.Get(kind), bindings[j].clone);
    }
  }

  /** The first `x` clones are bound, the others still plain copies. */
  ghost predicate Stage(x: nat, bindings: seq<Binding<Engine>>)
    reads set b | b in bindings :: b.source, set b | b in bindings :: b.clone
  {
    forall j {:trigger bindings[j]} :: 0 <= j < |bindings| ==>
      if j < x then Bound(bindings[j].clone, bindings[j].source, bindings)
      else Copied(bindings[j].clone, bindings[j].source)
  }

  /** The second loop: bind and rebind every clone; `room` is how many bindings succeed. */
  method BindAll(bindings: seq<Binding<Engine>>, room: nat, ghost world: set<Engine>) returns (ok: bool)
    requires DistinctSources(bindings) && WellLinked(world) && NewClones(bindings, world) && Stage(0, bindings)
    modifies set b | b in bindings :: b.clone
    ensures ok == (|bindings| <= room) && (ok ==> Stage(|bindings|, bindings))
    ensures WellLinked(world) && NewClones(bindings, world)
  {
    CopiesAreTwins(bindings, world);
    ok := true;
    var x := 0;
    while x < |bindings|
      invariant 0 <= x <= |bindings| && AllTwins(bindings) && Stage(x, bindings) && ok && x <= room
      invariant WellLinked(world) && NewClones(bindings, world)
    {
      ok := x < room;
      if !ok {
        return;
      }
      assert bindings[x] in bindings;
      BindNext(x, bindings, world);
      x := x + 1;
    }
  }

  method BindNext(x: nat, bindings: seq<Binding<Engine>>, ghost world: set<Engine>)
    requires DistinctSources(bindings) && WellLinked(world) && NewClones(bindings, world)
    requires x < |bindings| && AllTwins(bindings) && Stage(x, bindings)
    modifies bindings[x].clone
    ensures AllTwins(bindings) && Stage(x + 1, bindings)
  {
    label before:
    assert Copied(bindings[x].clone, bindings[x].source);
    BindClone(x, bindings, world);
    forall kind, j | 0 <= j < |bindings|
      ensures Twins(kind, bindings[j])
    {
      if j != x {
        assert old@before(Twins(kind, bindings[j]));
      }
    }
    forall j | 0 <= j < |bindings|
      ensures if j < x + 1 then Bound(bindings[j].clone, bindings[j].source, bindings)
              else Copied(bindings[j].clone, bindings[j].source)
    {
      if j < x {
        assert old@before(Bound(bindings[j].clone, bindings[j].source, bindings));
      } else if j > x {
        assert old@before(Copied(bindings[j].clone, bindings[j].source));
      }
    }
  }

  /** How the child's lists correspond to the bindings of the fork. */
  ghost predicate Matched(parent: Capsule, child: Capsule, registered: set<Engine>, bindings: seq<Binding<Engine>>) {
    && |bindings| == |child.linked| + 1 && bindings[0] == Binding(parent.engine, child.engine)
    && child.engineSource == Some(RootSource(parent))
    && Covered(parent, registered, bindings)
    && (forall j :: 0 <= j < |child.linked| ==>
          && child.linked[j].clone == bindings[j + 1].clone
          && Resolve(parent, child.linked[j].source) == bindings[j + 1].source
          && child.linked[j].source in registered)
  }

  /** The copy of an engine that has one, the engine itself otherwise. */
  ghost function Mapped(bindings: seq<Binding<Engine>>, e: Engine): Engine {
    match Lookup(bindings, e)
    case Some(clone) => clone
    case None => e
  }

  /** The last loop of `native_store_clone_process_graph`. */
  method RemapLibraries(libraries: seq<Engine>, bindings: seq<Binding<Engine>>) returns (r: seq<Engine>)
    ensures |r| == |libraries| && forall i :: 0 <= i < |r| ==> r[i] == Mapped(bindings, libraries[i])
  {
    r := libraries;
    var i := 0;
    while i < |r|
      invariant 0 <= i <= |r| == |libraries|
      invariant forall k :: 0 <= k < |r| ==> r[k] == if k < i then Mapped(bindings, libraries[k]) else libraries[k]
    {
      var clone := FindSource(bindings, r[i]);
      if clone.Some? {
        r := r[i := clone.value];
      }
      i := i + 1;
    }
  }

  /** `native_store_clone_process_graph`: the child's engines and how they resolve. `room` is
      how many allocations succeed; a failure leaves the child with its root only. */
  method CloneProcessGraph(parent: Capsule, pid: int, root: Engine, modules: seq<Module>, room: nat,
                           ghost world: set<Engine>)
    returns (ok: bool, child: Capsule, bindings: seq<Binding<Engine>>)
    requires parent.engine in world && root !in world && Unmentioned(root, world) && Copied(root, parent.engine)
    requires WellLinked(world)
    requires forall e :: e in Registered(modules, pid) ==> Resolve(parent, e) in world
    modifies root
    ensures room >= 2 * |modules| + 1 ==> ok
    ensures child.engine == root && child.engineSource == Some(RootSource(parent)) && (!ok ==> child.linked == [])
    ensures ok ==> GraphCloned(bindings, world) && Matched(parent, child, Registered(modules, pid), bindings)
    ensures ok ==> forall j :: 0 < j < |bindings| ==> fresh(bindings[j].clone)
    ensures ok ==>
              && |child.libraries| == |parent.libraries|
              && forall i :: 0 <= i < |child.libraries| ==> child.libraries[i] == Mapped(bindings, parent.libraries[i])
    ensures ok && OneForm(parent, Registered(modules, pid)) ==>
              forall e :: e in Registered(modules, pid) ==>
                Lookup(bindings, Resolve(parent, e)) == Some(Resolve(child, e))
  {
    var linked, left;
    ok, bindings, linked, left := CollectClones(parent, pid, root, modules, room, world);
    child := Capsule(root, Some(RootSource(parent)), [], parent.libraries);
    if !ok {
      return;
    }
    ok := BindAll(bindings, left, world);
    if !ok {
      return;
    }
    var libraries := RemapLibraries(parent.libraries, bindings);
    child := child.(linked := linked, libraries := libraries);
    ChildResolves(parent, Registered(modules, pid), child, bindings);
  }

  /** Fork as the engines see it: clone the root, then the rest of the graph. */
  method ForkGraph(parent: Capsule, pid: int, modules: seq<Module>, room: nat, ghost world: set<Engine>)
    returns (ok: bool, child: Capsule, bindings: seq<Binding<Engine>>)
    requires parent.engine in world && WellLinked(world)
    requires forall e :: e in Registered(modules, pid) ==> Resolve(parent, e) in world
    ensures ok ==> GraphCloned(bindings, world) && Matched(parent, child, Registered(modules, pid), bindings)
    ensures ok ==> forall j :: 0 <= j < |bindings| ==> fresh(bindings[j].clone)
    ensures room >= 2 * |modules| + 2 ==> ok
  {
    var root;
    ok, root := CloneEngine(parent.engine, room > 0, world);
    child, bindings := parent, []; // not used on failure
    if ok {
      ok, child, bindings := CloneProcessGraph(parent, pid, root, modules, room - 1, world);
    }
  }

  /** What a process graph clone leaves: new engines, fully bound, next to an unchanged world. */
  ghost predicate GraphCloned(bindings: seq<Binding<Engine>>, world: set<Engine>)
    reads world, set b | b in bindings :: b.source, set b | b in bindings :: b.clone
  {
    && DistinctSources(bindings) && WellLinked(world) && NewClones(bindings, world)
    && Stage(|bindings|, bindings)
  }

  /** Different registered engines have different forms in the process, and only the root's own
      registered engine has the root as its form. */
  ghost predicate OneForm(c: Capsule, registered: set<Engine>) {
    && (forall e :: e in registered ==> (Resolve(c, e) == c.engine <==> e == RootSource(c)))
    && (forall e, f :: e in registered && f in registered && Resolve(c, e) == Resolve(c, f) ==> e == f)
  }

  /** The child resolves a registered engine to the clone of what the parent resolves it to. */
  lemma ChildResolves(parent: Capsule, registered: set<Engine>, child: Capsule, bindings: seq<Binding<Engine>>)
    requires DistinctSources(bindings) && Matched(parent, child, registered, bindings)
    ensures OneForm(parent, registered) ==>
              forall e :: e in registered ==> Lookup(bindings, Resolve(parent, e)) == Some(Resolve(child, e))
  {
    if OneForm(parent, registered) {
      forall e | e in registered
        ensures Lookup(bindings, Resolve(parent, e)) == Some(Resolve(child, e))
      {
        LookupFinds(bindings, Resolve(parent, e));
        var i :| 0 <= i < |bindings| && bindings[i].source == Resolve(parent, e);
        LookupAt(bindings, i);
        if e != RootSource(parent) {
          assert child.linked[i - 1].source == e;
          LookupFinds(child.linked, e);
        }
      }
    }
  }

  // ---- the child graph is a disjoint copy of the parent's ---------------------------

  /** Renaming tells references apart exactly as the originals do, and never yields
      an object of a cloned engine. */
  lemma RenamedInjective(bindings: seq<Binding<Engine>>, r: Ref, t: Ref)
    requires DistinctSources(bindings)
    requires forall i, j :: 0 <= i < j < |bindings| ==> bindings[i].clone != bindings[j].clone
    requires forall i, j :: 0 <= i < |bindings| && 0 <= j < |bindings| ==> bindings[i].clone != bindings[j].source
    requires r.Slot? ==> forall j :: 0 <= j < |bindings| ==> bindings[j].clone != r.owner
    requires t.Slot? ==> forall j :: 0 <= j < |bindings| ==> bindings[j].clone != t.owner
    ensures Renamed(r, bindings) == Renamed(t, bindings) <==> r == t
    ensures Renamed(r, bindings).Slot? ==>
              forall j :: 0 <= j < |bindings| ==> bindings[j].source != Renamed(r, bindings).owner
  {
    if r.Slot? {
      LookupFinds(bindings, r.owner);
    }
    if t.Slot? {
      LookupFinds(bindings, t.owner);
    }
  }

  /** After a graph clone, two child engines share a memory, table or global exactly when
      their parents did, and no child engine points at an object of a cloned parent engine. */
  lemma GraphIsomorphic(bindings: seq<Binding<Engine>>, world: set<Engine>, kind: Kind,
                        x: nat, i: nat, y: nat, j: nat)
    requires GraphCloned(bindings, world) && x < |bindings| && y < |bindings|
    requires i < |bindings[x].clone.Get(kind).refs| && j < |bindings[y].clone.Get(kind).refs|
    ensures |bindings[x].source.Get(kind).refs| == |bindings[x].clone.Get(kind).refs|
    ensures |bindings[y].source.Get(kind).refs| == |bindings[y].clone.Get(kind).refs|
    ensures bindings[x].clone.Get(kind).refs[i] == bindings[y].clone.Get(kind).refs[j] <==>
            bindings[x].source.Get(kind).refs[i] == bindings[y].source.Get(kind).refs[j]
    ensures bindings[x].clone.Get(kind).refs[i].Slot? ==>
              forall k :: 0 <= k < |bindings| ==>
                bindings[k].source != bindings[x].clone.Get(kind).refs[i].owner
  {
    assert Bound(bindings[x].clone, bindings[x].source, bindings);
    assert Bound(bindings[y].clone, bindings[y].source, bindings);
    var r, t := bindings[x].source.Get(kind).refs[i], bindings[y].source.Get(kind).refs[j];
    forall k | 0 <= k < |bindings|
      ensures r.Slot? ==> bindings[k].clone != r.owner
      ensures t.Slot? ==> bindings[k].clone != t.owner
    {
      assert Unmentioned(bindings[k].clone, world);
    }
    RenamedInjective(bindings, r, t);
  }

  /** After a graph clone, a child engine sends every function reference of the graph, of this
      generation or an earlier one its parent knew, to a child engine. */
  lemma FunctionsStayInChild(bindings: seq<Binding<Engine>>, world: set<Engine>, x: nat, owner: Engine)
    requires GraphCloned(bindings, world) && x < |bindings| && DistinctSources(bindings[x].source.bindings)
    requires var m := Lookup(bindings[x].source.bindings, owner);
             || Lookup(bindings, owner).Some?
             || (m.Some? && Lookup(bindings, m.value).Some?)
    ensures var to := Lookup(bindings[x].clone.bindings, owner);
            to.Some? && exists j :: 0 <= j < |bindings| && bindings[j].clone == to.value
  {
    assert Bound(bindings[x].clone, bindings[x].source, bindings);
    ComposedLookup(bindings, bindings[x].source.bindings, owner);
    LookupFinds(bindings, owner);
    var m := Lookup(bindings[x].source.bindings, owner);
    if m.Some? {
      LookupFinds(bindings, m.value);
    }
  }

  /** The function that an entry of an engine calls (`exec_clone_resolve`). */
  ghost function Denotes(e: Engine, f: FuncRef): FuncRef
    reads e
  {
    if f.NullRef? then f else FuncRef(Mapped(e.bindings, f.owner), f.func)
  }

  /** The same function in the copy of its engine, if that has one. */
  ghost function Moved(bindings: seq<Binding<Engine>>, f: FuncRef): FuncRef {
    if f.NullRef? then f else FuncRef(Mapped(bindings, f.owner), f.func)
  }

  /** Whether a fork with `bindings` takes along what `inherited` says of `owner`: it is not bound to
      another engine, or it is bound to one of the graph and is not in the graph itself. */
  ghost predicate TakesAlong(bindings: seq<Binding<Engine>>, inherited: seq<Binding<Engine>>, owner: Engine) {
    match Lookup(inherited, owner)
    case None => true
    case Some(now) => now == owner || (Lookup(bindings, owner).None? && Lookup(bindings, now).Some?)
  }

  lemma MappedInjective(bindings: seq<Binding<Engine>>, world: set<Engine>, a: Engine, b: Engine)
    requires DistinctSources(bindings) && NewClones(bindings, world)
    requires forall j :: 0 <= j < |bindings| ==> bindings[j].clone != a && bindings[j].clone != b
    ensures Mapped(bindings, a) == Mapped(bindings, b) <==> a == b
    ensures forall j :: 0 <= j < |bindings| ==> bindings[j].source != Mapped(bindings, a)
  {
    LookupFinds(bindings, a);
    LookupFinds(bindings, b);
  }

  /** What an engine's bindings give for an owner it mentions is no new clone. */
  lemma FormIsOld(bindings: seq<Binding<Engine>>, world: set<Engine>, e: Engine, owner: Engine)
    requires NewClones(bindings, world) && e in world
    requires forall j :: 0 <= j < |bindings| ==> bindings[j].clone != owner
    ensures forall j :: 0 <= j < |bindings| ==> bindings[j].clone != Mapped(e.bindings, owner)
  {
    LookupFinds(e.bindings, owner);
    if Lookup(e.bindings, owner).Some? {
      var i :| 0 <= i < |e.bindings| && e.bindings[i] == Binding(owner, Lookup(e.bindings, owner).value);
      forall j | 0 <= j < |bindings|
        ensures bindings[j].clone != Mapped(e.bindings, owner)
      {
        assert Unmentioned(bindings[j].clone, world);
      }
    }
  }

  /** An entry of the child calls the copy of what the parent's entry calls, exactly if the fork
      takes along what the parent's bindings say of its owner. */
  lemma EntryMoves(bindings: seq<Binding<Engine>>, world: set<Engine>, x: nat, i: nat)
    requires GraphCloned(bindings, world) && x < |bindings| && DistinctSources(bindings[x].source.bindings)
    requires i < |bindings[x].source.functions| && bindings[x].source.functions[i].FuncRef?
    ensures i < |bindings[x].clone.functions|
    ensures Denotes(bindings[x].clone, bindings[x].clone.functions[i])
            == Moved(bindings, Denotes(bindings[x].source, bindings[x].source.functions[i])) <==>
            TakesAlong(bindings, bindings[x].source.bindings, bindings[x].source.functions[i].owner)
  {
    var s, c := bindings[x].source, bindings[x].clone;
    var f := s.functions[i];
    assert Bound(c, s, bindings) && SameFunction(c.functions[i], f, s, c);
    forall j | 0 <= j < |bindings|
      ensures bindings[j].clone != f.owner
    {
      assert Unmentioned(bindings[j].clone, world);
    }
    FormIsOld(bindings, world, s, f.owner);
    LookupAt(bindings, x);
    OwnerMoves(bindings, world, x, f.owner);
    if f.owner == s {
      ComposedLookup(bindings, s.bindings, s);
      CloneUnbound(bindings, world, x);
    }
  }

  /** The new engine itself is bound to nothing. */
  lemma CloneUnbound(bindings: seq<Binding<Engine>>, world: set<Engine>, x: nat)
    requires GraphCloned(bindings, world) && x < |bindings| && DistinctSources(bindings[x].source.bindings)
    ensures Mapped(bindings[x].clone.bindings, bindings[x].clone) == bindings[x].clone
  {
    var s, c := bindings[x].source, bindings[x].clone;
    assert Bound(c, s, bindings) && Unmentioned(c, world);
    ComposedLookup(bindings, s.bindings, c);
    LookupFinds(bindings, c);
    LookupFinds(s.bindings, c);
  }

  lemma OwnerMoves(bindings: seq<Binding<Engine>>, world: set<Engine>, x: nat, owner: Engine)
    requires GraphCloned(bindings, world) && x < |bindings| && DistinctSources(bindings[x].source.bindings)
    requires forall j :: 0 <= j < |bindings| ==>
               bindings[j].clone != owner && bindings[j].clone != Mapped(bindings[x].source.bindings, owner)
    ensures Mapped(bindings[x].clone.bindings, owner)
            == Mapped(bindings, Mapped(bindings[x].source.bindings, owner)) <==>
            TakesAlong(bindings, bindings[x].source.bindings, owner)
  {
    var s := bindings[x].source;
    assert Bound(bindings[x].clone, s, bindings);
    ComposedLookup(bindings, s.bindings, owner);
    LookupFinds(bindings, owner);
    MappedInjective(bindings, world, owner, Mapped(s.bindings, owner));
  }

  /** After a graph clone, two entries of child engines call the same function exactly when the
      parents' entries did, and none calls a function of a cloned parent engine, provided the
      fork takes along what the bindings of the parents say of their owners. */
  lemma FunctionsIsomorphic(bindings: seq<Binding<Engine>>, world: set<Engine>, x: nat, i: nat, y: nat, j: nat)
    requires GraphCloned(bindings, world) && x < |bindings| && y < |bindings|
    requires DistinctSources(bindings[x].source.bindings) && DistinctSources(bindings[y].source.bindings)
    requires i < |bindings[x].source.functions| && bindings[x].source.functions[i].FuncRef?
    requires j < |bindings[y].source.functions| && bindings[y].source.functions[j].FuncRef?
    requires TakesAlong(bindings, bindings[x].source.bindings, bindings[x].source.functions[i].owner)
    requires TakesAlong(bindings, bindings[y].source.bindings, bindings[y].source.functions[j].owner)
    ensures i < |bindings[x].clone.functions| && j < |bindings[y].clone.functions|
    ensures Denotes(bindings[x].clone, bindings[x].clone.functions[i])
            == Denotes(bindings[y].clone, bindings[y].clone.functions[j]) <==>
            Denotes(bindings[x].source, bindings[x].source.functions[i])
            == Denotes(bindings[y].source, bindings[y].source.functions[j])
    ensures forall k :: 0 <= k < |bindings| ==>
              bindings[k].source != Denotes(bindings[x].clone, bindings[x].clone.functions[i]).owner
  {
    EntryMoves(bindings, world, x, i);
    EntryMoves(bindings, world, y, j);
    var f, g := bindings[x].source.functions[i], bindings[y].source.functions[j];
    forall k | 0 <= k < |bindings|
      ensures bindings[k].clone != f.owner && bindings[k].clone != g.owner
    {
      assert Unmentioned(bindings[k].clone, world);
    }
    FormIsOld(bindings, world, bindings[x].source, f.owner);
    FormIsOld(bindings, world, bindings[y].source, g.owner);
    MappedInjective(bindings, world, Denotes(bindings[x].source, f).owner, Denotes(bindings[y].source, g).owner);
  }

  // ---- forks of forks -------------------------------------------------------------

  ghost function Clones(bindings: seq<Binding<Engine>>): set<Engine> {
    set b | b in bindings :: b.clone
  }

  /** The parent's and the child's engines together are a well linked world, so that parent
      and child can both fork again. */
  lemma ChildWellLinked(bindings: seq<Binding<Engine>>, world: set<Engine>)
    requires GraphCloned(bindings, world)
    ensures WellLinked(world + Clones(bindings))
  {
    var both := world + Clones(bindings);
    forall e, kind | e in both
      ensures LinksOk(e, kind, both)
    {
      if e in world {
        assert LinksOk(e, kind, world);
        forall i | 0 <= i < |e.Get(kind).refs|
          ensures RefOk(e.Get(kind).refs[i], kind, both)
        {
          assert RefOk(e.Get(kind).refs[i], kind, world);
          assert forall k :: 0 <= k < |bindings| ==> Unmentioned(bindings[k].clone, world);
        }
      } else {
        var x :| 0 <= x < |bindings| && bindings[x].clone == e;
        CloneLinksOk(bindings, world, x, kind);
      }
    }
  }

  lemma CloneLinksOk(bindings: seq<Binding<Engine>>, world: set<Engine>, x: nat, kind: Kind)
    requires GraphCloned(bindings, world) && x < |bindings|
    ensures LinksOk(bindings[x].clone, kind, world + Clones(bindings))
  {
    var s, c := bindings[x].source, bindings[x].clone;
    assert Bound(c, s, bindings) && LinksOk(s, kind, world);
    LookupAt(bindings, x);
    forall i | 0 <= i < |c.Get(kind).refs|
      ensures RefOk(c.Get(kind).refs[i], kind, world + Clones(bindings))
    {
      ChildRefOk(bindings, world, x, kind, i);
    }
  }

  lemma ChildRefOk(bindings: seq<Binding<Engine>>, world: set<Engine>, x: nat, kind: Kind, i: nat)
    requires GraphCloned(bindings, world) && x < |bindings| && i < |bindings[x].clone.Get(kind).refs|
    ensures RefOk(bindings[x].clone.Get(kind).refs[i], kind, world + Clones(bindings))
  {
    var s, c := bindings[x].source, bindings[x].clone;
    assert Bound(c, s, bindings) && LinksOk(s, kind, world);
    var r := s.Get(kind).refs[i];
    assert RefOk(r, kind, world);
    if r.Slot? {
      LookupFinds(bindings, r.owner);
      if Lookup(bindings, r.owner).Some? {
        var j :| 0 <= j < |bindings| && bindings[j].source == r.owner
                 && bindings[j].clone == Lookup(bindings, r.owner).value;
        assert Bound(bindings[j].clone, bindings[j].source, bindings);
      } else {
        assert forall k :: 0 <= k < |bindings| ==> Unmentioned(bindings[k].clone, world);
      }
    }
  }
}
