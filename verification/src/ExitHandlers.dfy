/** Exit registrations and their re-entrant finalization (src/aux/libc/exit.c). */
module ExitHandlers {

  const EINVAL: int := 22
  const ENOMEM: int := 12

  /** A registration; `id` numbers them in the order they were made, and `dso` 0 stands for
      no library. */
  datatype Registration = Registration(id: nat, destructor: int, callback: int, argument: int, dso: int)

  ghost predicate Matches(e: Registration, dso: int) {
    dso == 0 || e.dso == dso
  }

  // ---- lists of registrations ------------------------------------------------------

  /** Newest first. */
  ghost predicate NewestFirst(es: seq<Registration>) {
    forall i, j :: 0 <= i < j < |es| ==> es[i].id > es[j].id
  }

  ghost predicate NoneMatches(es: seq<Registration>, dso: int) {
    forall i :: 0 <= i < |es| ==> !Matches(es[i], dso)
  }

  /** `e` is the newest entry that matches. */
  ghost predicate Newest(es: seq<Registration>, dso: int, e: Registration) {
    e in es && Matches(e, dso) && forall i :: 0 <= i < |es| && Matches(es[i], dso) ==> es[i].id <= e.id
  }

  function Without(es: seq<Registration>, k: int): seq<Registration>
    requires 0 <= k < |es|
  {
    es[..k] + es[k + 1..]
  }

  ghost function Matching(es: seq<Registration>, dso: int): seq<Registration> {
    if es == [] then [] else (if Matches(es[0], dso) then [es[0]] else []) + Matching(es[1..], dso)
  }

  ghost function Others(es: seq<Registration>, dso: int): seq<Registration> {
    if es == [] then [] else (if Matches(es[0], dso) then [] else [es[0]]) + Others(es[1..], dso)
  }

  lemma {:induction false} FirstOfMatching(es: seq<Registration>, dso: int, k: nat)
    requires k < |es| && Matches(es[k], dso) && NoneMatches(es[..k], dso)
    ensures Matching(es, dso) == [es[k]] + Matching(Without(es, k), dso)
    ensures Others(es, dso) == Others(Without(es, k), dso)
    decreases k
  {
    if k == 0 {
      assert Without(es, 0) == es[1..];
    } else {
      assert !Matches(es[..k][0], dso);
      assert es[1..][..k - 1] == es[..k][1..];
      FirstOfMatching(es[1..], dso, k - 1);
      assert Without(es, k) == [es[0]] + Without(es[1..], k - 1);
      assert Without(es, k)[1..] == Without(es[1..], k - 1);
    }
  }

  lemma {:induction false} NothingMatches(es: seq<Registration>, dso: int)
    requires NoneMatches(es, dso)
    ensures Matching(es, dso) == [] && Others(es, dso) == es
  {
    if es != [] {
      NothingMatches(es[1..], dso);
    }
  }

  /** The two lists part the entries: those of the library, or all of them if none is named,
      and the rest. */
  lemma {:induction false} Parted(es: seq<Registration>, dso: int, e: Registration)
    ensures e in Matching(es, dso) <==> e in es && (dso == 0 || e.dso == dso)
    ensures e in Others(es, dso) <==> e in es && dso != 0 && e.dso != dso
    ensures dso == 0 ==> Matching(es, dso) == es && Others(es, dso) == []
  {
    if es != [] {
      Parted(es[1..], dso, e);
      assert es == [es[0]] + es[1..];
    }
  }

  lemma PartedAll(es: seq<Registration>, dso: int)
    ensures forall e :: e in Matching(es, dso) <==> e in es && (dso == 0 || e.dso == dso)
    ensures forall e :: e in Others(es, dso) <==> e in es && dso != 0 && e.dso != dso
    ensures dso == 0 ==> Matching(es, dso) == es && Others(es, dso) == []
  {
    forall e
      ensures e in Matching(es, dso) <==> e in es && (dso == 0 || e.dso == dso)
      ensures e in Others(es, dso) <==> e in es && dso != 0 && e.dso != dso
      ensures dso == 0 ==> Matching(es, dso) == es && Others(es, dso) == []
    {
      Parted(es, dso, e);
    }
  }

  /** Both are newest first. */
  lemma {:induction false} PartedInOrder(es: seq<Registration>, dso: int)
    requires NewestFirst(es)
    ensures NewestFirst(Matching(es, dso)) && NewestFirst(Others(es, dso))
  {
    if es != [] {
      var rest := es[1..];
      PartedInOrder(rest, dso);
      RestIsOlder(es, dso);
      FirstIsNewest(es[0], Matching(rest, dso));
      FirstIsNewest(es[0], Others(rest, dso));
    }
  }

  lemma RestIsOlder(es: seq<Registration>, dso: int)
    requires NewestFirst(es) && es != []
    ensures forall e :: e in Matching(es[1..], dso) || e in Others(es[1..], dso) ==> e.id < es[0].id
  {
    var rest := es[1..];
    assert forall i :: 0 <= i < |rest| ==> rest[i] == es[i + 1];
    PartedAll(rest, dso);
  }

  lemma FirstIsNewest(e: Registration, es: seq<Registration>)
    requires NewestFirst(es) && forall f :: f in es ==> f.id < e.id
    ensures NewestFirst([e] + es)
  {
    forall i | 0 <= i < |es|
      ensures es[i].id < e.id
    {
      assert es[i] in es;
    }
  }

  // ---- the image -------------------------------------------------------------------

  datatype Found = Nothing | Retired(entry: Registration)

  /** What an image holds, and the entries it has invoked. */
  datatype State = State(registrations: seq<Registration>, nextId: nat, stack: seq<int>, invoked: seq<Registration>)

  class Image {
    var registrations: seq<Registration>
    var nextId: nat
    var errno: int
    /** The finalizations whose callback is running, the innermost last. */
    var stack: seq<int>
    ghost var made: set<nat>
    ghost var invoked: seq<Registration>
    ghost var dropped: set<nat>

    /** Every registration made is pending, was invoked once, or was dropped with its heap,
        and only one of these. */
    ghost predicate Valid()
      reads this
    {
      && NewestFirst(registrations)
      && Distinct(invoked)
      && made == Ids(registrations) + Ids(invoked) + dropped
      && Ids(registrations) !! Ids(invoked) && Ids(registrations) !! dropped && Ids(invoked) !! dropped
      && (forall id :: id in made ==> id < nextId)
    }

    ghost function Now(): State
      reads this
    {
      State(registrations, nextId, stack, invoked)
    }

    constructor ()
      ensures Valid() && registrations == [] && invoked == [] && made == {} && nextId == 0 && stack == []
    {
      registrations, nextId, errno, stack, made, invoked, dropped := [], 0, 0, [], {}, [], {};
    }

    /** `waste_exit_reset`: a new image starts without the nodes of the old heap. */
    method Reset()
      requires Valid()
      modifies this`registrations, this`dropped
      ensures Valid() && registrations == [] && dropped == old(dropped) + old(Ids(registrations))
    {
      dropped := dropped + Ids(registrations);
      registrations := [];
    }

    /** The tail of `__cxa_atexit` and of `atexit`. */
    method Push(destructor: int, callback: int, argument: int, dso: int)
      requires Valid()
      modifies this`registrations, this`nextId, this`made
      ensures Valid() && nextId == old(nextId) + 1 && made == old(made) + {old(nextId)}
      ensures registrations == [Registration(old(nextId), destructor, callback, argument, dso)] + old(registrations)
    {
      var e := Registration(nextId, destructor, callback, argument, dso);
      IdsPush(e, registrations);
      assert forall f :: f in registrations ==> f.id in Ids(registrations);
      FirstIsNewest(e, registrations);
      registrations := [e] + registrations;
      made := made + {nextId};
      nextId := nextId + 1;
    }

    /** `__cxa_atexit`; `room` says whether there is memory for the entry. */
    method CxaAtexit(destructor: int, argument: int, dso: int, room: bool) returns (r: int)
      requires Valid()
      modifies this`registrations, this`nextId, this`made, this`errno
      ensures Valid() && r == if destructor != 0 && room then 0 else -1
      ensures r == 0 ==>
                && registrations == [Registration(old(nextId), destructor, 0, argument, dso)] + old(registrations)
                && nextId == old(nextId) + 1 && errno == old(errno)
      ensures r != 0 ==>
                && registrations == old(registrations) && nextId == old(nextId)
                && errno == if destructor == 0 then EINVAL else ENOMEM
    {
      if destructor == 0 {
        errno := EINVAL;
        return -1;
      }
      if !room {
        errno := ENOMEM;
        return -1;
      }
      Push(destructor, 0, argument, dso);
      r := 0;
    }

    /** `atexit`. */
    method Atexit(callback: int, room: bool) returns (r: int)
      requires Valid()
      modifies this`registrations, this`nextId, this`made, this`errno
      ensures Valid() && r == if callback != 0 && room then 0 else -1
      ensures r == 0 ==>
                && registrations == [Registration(old(nextId), 0, callback, 0, 0)] + old(registrations)
                && nextId == old(nextId) + 1 && errno == old(errno)
      ensures r != 0 ==>
                && registrations == old(registrations) && nextId == old(nextId)
                && errno == if callback == 0 then EINVAL else ENOMEM
    {
      if callback == 0 {
        errno := EINVAL;
        return -1;
      }
      if !room {
        errno := ENOMEM;
        return -1;
      }
      Push(0, callback, 0, 0);
      r := 0;
    }

    /** One search of `__cxa_finalize`: unlink the newest entry that matches, before it is
        called, so that a nested finalization cannot take it again. */
    method Retire(dso: int) returns (found: Found)
      requires Valid()
      modifies this`registrations, this`invoked
      ensures Valid()
      ensures found == Nothing <==> old(NoneMatches(registrations, dso))
      ensures found == Nothing ==> registrations == old(registrations) && invoked == old(invoked)
      ensures found.Retired? ==>
                && old(Newest(registrations, dso, found.entry)) && found.entry !in old(invoked)
                && invoked == old(invoked) + [found.entry]
                && Matching(old(registrations), dso) == [found.entry] + Matching(registrations, dso)
                && Others(registrations, dso) == old(Others(registrations, dso))
                && Takes(old(registrations), dso, found.entry, registrations)
    {
      var link := Find(dso);
      if link == |registrations| {
        assert registrations[..link] == registrations;
        return Nothing;
      }
      found := Retired(registrations[link]);
      RetireStep(registrations, dso, link);
      Unlink(link);
    }

    /** Follow the links to the first entry that matches, or to the end. */
    method Find(dso: int) returns (link: int)
      ensures 0 <= link <= |registrations| && NoneMatches(registrations[..link], dso)
      ensures link < |registrations| ==> Matches(registrations[link], dso)
    {
      link := 0;
      while link < |registrations| && dso != 0 && registrations[link].dso != dso
        invariant 0 <= link <= |registrations|
        invariant NoneMatches(registrations[..link], dso)
      {
        link := link + 1;
      }
    }

    method Unlink(link: int)
      requires Valid() && 0 <= link < |registrations|
      modifies this`registrations, this`invoked
      ensures Valid() && registrations == Without(old(registrations), link)
      ensures invoked == old(invoked) + [old(registrations)[link]] && old(registrations)[link] !in old(invoked)
    {
      var entry := registrations[link];
      NewestWithout(registrations, link);
      IdsWithout(registrations, link);
      assert entry.id in Ids(registrations);
      IdsSnoc(invoked, entry);
      registrations := Without(registrations, link);
      invoked := invoked + [entry];
    }

    /** A finalization looks for its next entry. If there is one its callback starts to run;
        if not, and only then, the finalization returns. */
    method Search(dso: int) returns (done: bool)
      requires Valid()
      modifies this`registrations, this`invoked, this`stack
      ensures Valid() && done == old(NoneMatches(registrations, dso))
      ensures Searches(old(Now()), dso, Now())
      ensures !done ==> |invoked| == |old(invoked)| + 1 && Newest(old(registrations), dso, invoked[|invoked| - 1])
    {
      var found := Retire(dso);
      done := found == Nothing;
      if !done {
        stack := stack + [dso];
      }
    }

    /** A callback returns, and the finalization that called it goes on. */
    method GoOn()
      requires Valid()
      modifies this`registrations, this`invoked, this`stack
      ensures Valid() && old(invoked) <= invoked && Effect(old(Now()), Return, Now())
      ensures old(stack) != [] && stack == old(stack)[..|old(stack)| - 1] ==>
                NoneMatches(registrations, old(stack)[|old(stack)| - 1])
    {
      if stack != [] {
        var dso := stack[|stack| - 1];
        stack := stack[..|stack| - 1];
        var _ := Search(dso);
      }
    }

    /** One action of the guest; callbacks may register and finalize in turn. */
    method Perform(action: Action)
      requires Valid()
      modifies this
      ensures Valid() && Effect(old(Now()), action, Now()) && old(invoked) <= invoked && old(made) <= made
      ensures dropped == if action.NewImage? then old(dropped) + old(Ids(registrations)) else old(dropped)
      ensures action.NewImage? ==> registrations == [] && stack == []
      ensures action.Finalize? && stack == old(stack) ==> NoneMatches(registrations, action.dso)
      ensures action.Return? && old(stack) != [] && stack == old(stack)[..|old(stack)| - 1] ==>
                NoneMatches(registrations, old(stack)[|old(stack)| - 1])
    {
      match action {
        case RegisterDestructor(destructor, argument, dso, room) =>
          var _ := CxaAtexit(destructor, argument, dso, room);
        case RegisterCallback(callback, room) =>
          var _ := Atexit(callback, room);
        case Finalize(dso) =>
          var _ := Search(dso);
        case Return =>
          GoOn();
        case NewImage =>
          Reset();
          stack := [];
      }
    }

    /** Over any run every registration is invoked at most once, every one made is pending,
        invoked or dropped, and none that was dropped with its image is invoked. */
    method Run(actions: seq<Action>) returns (ghost states: seq<State>)
      requires Valid()
      modifies this
      ensures Trace(states, actions) && states[0] == old(Now()) && states[|actions|] == Now()
      ensures Valid() && Distinct(invoked) && old(invoked) <= invoked
      ensures made == Ids(registrations) + Ids(invoked) + dropped && Ids(registrations) !! Ids(invoked)
      ensures old(dropped) <= dropped && dropped !! Ids(invoked)
    {
      states := [Now()];
      var i := 0;
      while i < |actions|
        invariant 0 <= i <= |actions| && Valid() && old(invoked) <= invoked && old(dropped) <= dropped
        invariant Trace(states, actions[..i]) && states[0] == old(Now()) && states[i] == Now()
      {
        Perform(actions[i]);
        TraceNext(states, actions, i, Now());
        states := states + [Now()];
        i := i + 1;
      }
      assert actions[..i] == actions;
    }

    /** A finalization whose callbacks register nothing invokes the entries of the library,
        or all of them, in the reverse of the order they were registered in. */
    method FinalizeQuietly(dso: int)
      requires Valid()
      modifies this`registrations, this`invoked
      ensures Valid()
      ensures invoked == old(invoked) + old(Matching(registrations, dso))
      ensures registrations == old(Others(registrations, dso))
      ensures dso == 0 ==> registrations == [] && invoked == old(invoked) + old(registrations)
      ensures forall e :: e in registrations <==> e in old(registrations) && dso != 0 && e.dso != dso
      ensures forall e :: e in invoked <==>
                e in old(invoked) || (e in old(registrations) && (dso == 0 || e.dso == dso))
    {
      PartedAll(registrations, dso);
      RetireAll(dso);
    }

    method RetireAll(dso: int)
      requires Valid()
      modifies this`registrations, this`invoked
      ensures Valid()
      ensures invoked == old(invoked) + old(Matching(registrations, dso))
      ensures registrations == old(Others(registrations, dso))
    {
      while true
        invariant Valid()
        invariant invoked + Matching(registrations, dso) == old(invoked) + old(Matching(registrations, dso))
        invariant Others(registrations, dso) == old(Others(registrations, dso))
        decreases |registrations|
      {
        ghost var before := invoked;
        var found := Retire(dso);
        if found == Nothing {
          NothingMatches(registrations, dso);
          return;
        }
        assert before + ([found.entry] + Matching(registrations, dso)) == invoked + Matching(registrations, dso);
      }
    }
  }

  // ---- runs ------------------------------------------------------------------------

  /** What guest code does: the program, or the callback that runs. `Return` ends the
      innermost callback, and `NewImage` is an exec that commits. */
  datatype Action =
    | RegisterDestructor(destructor: int, argument: int, dso: int, room: bool)
    | RegisterCallback(callback: int, room: bool)
    | Finalize(dso: int)
    | Return
    | NewImage

  /** `e` is the first entry that matches, and `es'` is the list without it. */
  ghost predicate Takes(es: seq<Registration>, dso: int, e: Registration, es': seq<Registration>) {
    exists k ::
      0 <= k < |es| && es[k] == e && Matches(e, dso) && NoneMatches(es[..k], dso) && es' == Without(es, k)
  }

  /** A finalization takes its next entry, whose callback then runs, if there is one. */
  ghost predicate Searches(a: State, dso: int, b: State) {
    if NoneMatches(a.registrations, dso) then b == a
    else exists e ::
           && Takes(a.registrations, dso, e, b.registrations)
           && b == State(b.registrations, a.nextId, a.stack + [dso], a.invoked + [e])
  }

  ghost function Registered(a: State, destructor: int, callback: int, argument: int, dso: int): State {
    a.(registrations := [Registration(a.nextId, destructor, callback, argument, dso)] + a.registrations,
       nextId := a.nextId + 1)
  }

  ghost predicate Effect(a: State, action: Action, b: State) {
    match action
    case RegisterDestructor(destructor, argument, dso, room) =>
      b == if destructor != 0 && room then Registered(a, destructor, 0, argument, dso) else a
    case RegisterCallback(callback, room) =>
      b == if callback != 0 && room then Registered(a, 0, callback, 0, 0) else a
    case Finalize(dso) => Searches(a, dso, b)
    case Return =>
      if a.stack == [] then b == a
      else Searches(a.(stack := a.stack[..|a.stack| - 1]), a.stack[|a.stack| - 1], b)
    case NewImage => b == a.(registrations := [], stack := [])
  }

  /** The states between actions. */
  ghost predicate Trace(states: seq<State>, actions: seq<Action>) {
    && |states| == |actions| + 1
    && forall i :: 0 <= i < |actions| ==> Effect(states[i], actions[i], states[i + 1])
  }

  lemma TraceNext(states: seq<State>, actions: seq<Action>, i: nat, next: State)
    requires i < |actions| && Trace(states, actions[..i]) && Effect(states[i], actions[i], next)
    ensures Trace(states + [next], actions[..i + 1])
  {
    var more, made := states + [next], actions[..i + 1];
    forall j | 0 <= j < |made|
      ensures Effect(more[j], made[j], more[j + 1])
    {
      if j < i {
        assert actions[..i][j] == made[j];
      }
    }
  }

  ghost function Ids(es: seq<Registration>): set<nat> {
    set e | e in es :: e.id
  }

  ghost predicate Distinct(es: seq<Registration>) {
    forall i, j :: 0 <= i < j < |es| ==> es[i].id != es[j].id
  }

  lemma IdsPush(e: Registration, es: seq<Registration>)
    ensures Ids([e] + es) == Ids(es) + {e.id}
  {
    assert ([e] + es)[0] == e;
    forall f | f in es
      ensures f in [e] + es
    {
      var i :| 0 <= i < |es| && es[i] == f;
      assert ([e] + es)[i + 1] == f;
    }
  }

  lemma NewestWithout(es: seq<Registration>, k: int)
    requires NewestFirst(es) && 0 <= k < |es|
    ensures NewestFirst(Without(es, k))
  {
    var rest := Without(es, k);
    forall i, j | 0 <= i < j < |rest|
      ensures rest[i].id > rest[j].id
    {
      var i', j' := if i < k then i else i + 1, if j < k then j else j + 1;
      assert rest[i] == es[i'] && rest[j] == es[j'];
    }
  }

  lemma IdsWithout(es: seq<Registration>, k: int)
    requires NewestFirst(es) && 0 <= k < |es|
    ensures Ids(Without(es, k)) == Ids(es) - {es[k].id}
  {
    var rest := Without(es, k);
    forall i | 0 <= i < |rest|
      ensures rest[i] in es && rest[i].id != es[k].id
    {
      assert rest[i] == es[if i < k then i else i + 1];
    }
    forall e | e in es && e.id != es[k].id
      ensures e in rest
    {
      var i :| 0 <= i < |es| && es[i] == e;
      assert rest[if i < k then i else i - 1] == e;
    }
  }

  lemma IdsSnoc(done: seq<Registration>, e: Registration)
    requires Distinct(done) && e.id !in Ids(done)
    ensures Ids(done + [e]) == Ids(done) + {e.id} && Distinct(done + [e]) && e !in done
  {
    forall i | 0 <= i < |done|
      ensures done[i].id != e.id && (done + [e])[i] == done[i]
    {
      assert done[i].id in Ids(done);
    }
    assert (done + [e])[|done|] == e;
    forall f | f in done
      ensures f in done + [e]
    {
      var i :| 0 <= i < |done| && done[i] == f;
      assert (done + [e])[i] == f;
    }
  }

  lemma RetireStep(es: seq<Registration>, dso: int, k: int)
    requires NewestFirst(es) && 0 <= k < |es| && Matches(es[k], dso) && NoneMatches(es[..k], dso)
    ensures Newest(es, dso, es[k])
    ensures Matching(es, dso) == [es[k]] + Matching(Without(es, k), dso)
    ensures Others(es, dso) == Others(Without(es, k), dso)
  {
    FirstOfMatching(es, dso, k);
    assert forall i :: 0 <= i < k ==> es[..k][i] == es[i];
  }
}
