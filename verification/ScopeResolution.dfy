/** Service resolution (scope.go): registrations, and the double-checked creation of singletons and
    scoped services, first one call at a time, then under every interleaving. */
module ScopeResolution {
  import opened Options

  type Key = string

  datatype Lifetime = Singleton | Scoped | Transient

  /** factory names the constructor a registration carries. */
  datatype Registration = Registration(lifetime: Lifetime, factory: nat)

  /** What a factory call returns; serial tells the calls apart. */
  datatype Instance = Instance(factory: nat, serial: nat)

  // ---------------------------------------------------------------- the source's objects

  class Container {
    var registrations: map<Key, Registration>
    var singletons: map<Key, Instance>
    var serial: nat  // factory calls so far

    constructor ()
      ensures registrations == map[] && singletons == map[] && serial == 0
    {
      registrations, singletons, serial := map[], map[], 0;
    }

    /** add replaces; what was already created stays. */
    method Add(key: Key, reg: Registration)
      modifies this
      ensures registrations == old(registrations)[key := reg]
      ensures singletons == old(singletons) && serial == old(serial)
    {
      registrations := registrations[key := reg];
    }

    /** tryAdd never replaces, so an application's own registration wins over a framework default. */
    method TryAdd(key: Key, reg: Registration)
      modifies this
      ensures registrations == if key in old(registrations) then old(registrations) else old(registrations)[key := reg]
      ensures singletons == old(singletons) && serial == old(serial)
    {
      if key in registrations {
        return;
      }
      registrations := registrations[key := reg];
    }

    method Build(factory: nat) returns (value: Instance)
      modifies `serial
      ensures value == Instance(factory, old(serial)) && serial == old(serial) + 1
    {
      value := Instance(factory, serial);
      serial := serial + 1;
    }

    /** typedSingleton. The lock is not held while the factory runs; during is what other callers, and
        the factory's own resolutions, store meanwhile. */
    method TypedSingleton(key: Key, reg: Registration, during: map<Key, Instance>) returns (value: Instance)
      modifies this
      ensures registrations == old(registrations)
      ensures (singletons, value, serial) == Resolve(old(singletons), key, reg.factory, old(serial), during)
    {
      if key in singletons {
        return singletons[key];
      }
      value := Build(reg.factory);
      singletons := during + singletons;
      if key in singletons {
        return singletons[key];
      }
      singletons := singletons[key := value];
    }
  }

  class Scope {
    const container: Container
    var scoped: map<Key, Instance>

    constructor (container: Container)
      ensures this.container == container && scoped == map[]
    {
      this.container, scoped := container, map[];
    }

    /** typedScoped: the same double check over the scope's own map. */
    method TypedScoped(key: Key, reg: Registration, during: map<Key, Instance>) returns (value: Instance)
      modifies this, container
      ensures container.registrations == old(container.registrations)
        && container.singletons == old(container.singletons)
      ensures (scoped, value, container.serial) == Resolve(old(scoped), key, reg.factory, old(container.serial), during)
    {
      if key in scoped {
        return scoped[key];
      }
      value := container.Build(reg.factory);
      scoped := during + scoped;
      if key in scoped {
        return scoped[key];
      }
      scoped := scoped[key := value];
    }

    /** TryGetService: by the registration's lifetime. */
    method TryGetService(key: Key, during: map<Key, Instance>) returns (value: Option<Instance>)
      modifies this, container
      ensures container.registrations == old(container.registrations)
      ensures value.Some? <==> key in container.registrations
      ensures value.Some? ==>
        var reg := container.registrations[key];
        match reg.lifetime
        case Singleton =>
          scoped == old(scoped)
          && (container.singletons, value.value, container.serial)
             == Resolve(old(container.singletons), key, reg.factory, old(container.serial), during)
        case Scoped =>
          container.singletons == old(container.singletons)
          && (scoped, value.value, container.serial)
            == Resolve(old(scoped), key, reg.factory, old(container.serial), during)
        case Transient =>
          scoped == old(scoped) && container.singletons == old(container.singletons)
          && value.value == Instance(reg.factory, old(container.serial))
            && container.serial == old(container.serial) + 1
      ensures value.None? ==> scoped == old(scoped) && container.singletons == old(container.singletons)
    {
      if key !in container.registrations {
        return None;
      }
      var reg := container.registrations[key];
      var v: Instance;
      match reg.lifetime {
        case Singleton => v := container.TypedSingleton(key, reg, during);
        case Scoped => v := TypedScoped(key, reg, during);
        case Transient => v := container.Build(reg.factory);
      }
      value := Some(v);
    }
  }

  /** One call: the stored instance, or the first one stored while the factory ran, or the new one. */
  function Resolve(instances: map<Key, Instance>, key: Key, factory: nat, serial: nat, during: map<Key, Instance>)
    : (r: (map<Key, Instance>, Instance, nat))
    ensures key in r.0 && r.1 == r.0[key]
    ensures forall k | k in instances :: k in r.0 && r.0[k] == instances[k]
  {
    if key in instances then (instances, instances[key], serial)
    else
      var stored := during + instances;
      if key in stored then (stored, stored[key], serial + 1)
      else (stored[key := Instance(factory, serial)], Instance(factory, serial), serial + 1)
  }

  // ---------------------------------------------------------------- interleavings

  /** A cache entry: of the container (owner 0) or of one scope. */
  datatype Slot = Slot(owner: nat, key: Key)

  /** The atomic steps of one resolution: the first locked check, the factory's return - the lock is
      not held while it runs - and the second locked check. */
  datatype Step =
    | Check(id: nat, slot: Slot, factory: nat)
    | Return(id: nat)
    | Publish(id: nat)

  datatype Phase =
    | Missed(slot: Slot, factory: nat)
    | Made(slot: Slot, made: Instance)
    | Got(slot: Slot, got: Instance)

  datatype State = State(instances: map<Slot, Instance>, callers: map<nat, Phase>, serial: nat, built: seq<Slot>)

  const START := State(map[], map[], 0, [])

  /** A step a caller is not ready for does nothing. */
  function Next(st: State, step: Step): State {
    match step
    case Check(id, slot, factory) =>
      if id in st.callers then st
      else if slot in st.instances then st.(callers := st.callers[id := Got(slot, st.instances[slot])])
      else st.(callers := st.callers[id := Missed(slot, factory)])
    case Return(id) =>
      if id !in st.callers || !st.callers[id].Missed? then st
      else
        var p := st.callers[id];
        State(st.instances, st.callers[id := Made(p.slot, Instance(p.factory, st.serial))],
              st.serial + 1, st.built + [p.slot])
    case Publish(id) =>
      if id !in st.callers || !st.callers[id].Made? then st
      else
        var p := st.callers[id];
        if p.slot in st.instances then st.(callers := st.callers[id := Got(p.slot, st.instances[p.slot])])
        else st.(instances := st.instances[p.slot := p.made], callers := st.callers[id := Got(p.slot, p.made)])
  }

  function RunFrom(st: State, steps: seq<Step>): State
    decreases |steps|
  {
    if steps == [] then st else RunFrom(Next(st, steps[0]), steps[1..])
  }

  /** Every caller that has its instance has the stored one. */
  ghost predicate Agreed(st: State) {
    forall id | id in st.callers && st.callers[id].Got? ::
      st.callers[id].slot in st.instances && st.callers[id].got == st.instances[st.callers[id].slot]
  }

  /** st' still stores, and still has handed out, everything st does. */
  ghost predicate Stable(st: State, st': State) {
    && (forall slot | slot in st.instances :: slot in st'.instances && st'.instances[slot] == st.instances[slot])
    && (forall id | id in st.callers && st.callers[id].Got? :: id in st'.callers && st'.callers[id] == st.callers[id])
  }

  /** Over every interleaving, a stored instance never changes, and all callers of one slot get it -
      however many factories ran. */
  lemma {:induction false} CallersAgree(st: State, steps: seq<Step>)
    requires Agreed(st)
    ensures Agreed(RunFrom(st, steps)) && Stable(st, RunFrom(st, steps))
    decreases |steps|
  {
    if steps != [] {
      var st' := Next(st, steps[0]);
      assert Agreed(st') && Stable(st, st');
      CallersAgree(st', steps[1..]);
    }
  }

  lemma AllCallersGetOneInstance(steps: seq<Step>, more: seq<Step>, a: nat, b: nat)
    ensures var now, later := RunFrom(START, steps), RunFrom(RunFrom(START, steps), more);
      a in now.callers && now.callers[a].Got? && b in later.callers && later.callers[b].Got?
      && now.callers[a].slot == later.callers[b].slot
      ==> now.callers[a].got == later.callers[b].got
  {
    CallersAgree(START, steps);
    CallersAgree(RunFrom(START, steps), more);
  }

  /** A factory only runs for a caller that looked before anything was stored: a slot is never built
      again once no caller is on its way. */
  lemma {:induction false} NoBuildAfterStored(st: State, steps: seq<Step>, slot: Slot)
    requires slot in st.instances
    requires forall id | id in st.callers && st.callers[id].Missed? :: st.callers[id].slot != slot
    ensures Count(RunFrom(st, steps).built, slot) == Count(st.built, slot)
    decreases |steps|
  {
    if steps != [] {
      var st' := Next(st, steps[0]);
      assert st'.built == st.built || st'.built == st.built + [st'.built[|st.built|]];
      if st'.built != st.built {
        CountOneMore(st.built, st'.built[|st.built|], slot);
      }
      NoBuildAfterStored(st', steps[1..], slot);
    }
  }

  function Count(built: seq<Slot>, slot: Slot): nat { multiset(built)[slot] }

  lemma CountOneMore(built: seq<Slot>, x: Slot, slot: Slot)
    ensures Count(built + [x], slot) == Count(built, slot) + if x == slot then 1 else 0
  {
  }

  /** A caller of the slot between its first check and its publish. */
  ghost predicate OnItsWay(st: State, id: nat, slot: Slot) {
    id in st.callers && !st.callers[id].Got? && st.callers[id].slot == slot
  }

  ghost predicate AtMostOne(st: State, slot: Slot) {
    forall a, b | OnItsWay(st, a, slot) && OnItsWay(st, b, slot) :: a == b
  }

  /** Over the whole run the slot never has two callers on their way at once. Anything else may happen in
      between: a factory may resolve what it depends on, and other slots may have any number of callers. */
  ghost predicate InTurn(st: State, steps: seq<Step>, slot: Slot)
    decreases |steps|
  {
    && AtMostOne(st, slot)
    && (steps != [] ==> InTurn(Next(st, steps[0]), steps[1..], slot))
  }

  /** The slot is stored, built at most once and called by nobody; or it is not stored, and has been built
      only if a caller is bringing its instance. */
  ghost predicate BuiltForOne(st: State, slot: Slot) {
    && Count(st.built, slot) <= 1
    && (slot in st.instances ==> forall id :: !OnItsWay(st, id, slot))
    && (slot !in st.instances && Count(st.built, slot) == 1 ==>
          exists id :: OnItsWay(st, id, slot) && st.callers[id].Made?)
  }

  lemma StepInTurn(st: State, step: Step, slot: Slot)
    requires BuiltForOne(st, slot) && AtMostOne(st, slot)
    ensures BuiltForOne(Next(st, step), slot)
  {
    hide Count;
    var st' := Next(st, step);
    if slot !in st.instances && Count(st.built, slot) == 1 {
      var id :| OnItsWay(st, id, slot) && st.callers[id].Made?;
      assert slot !in st'.instances ==> OnItsWay(st', id, slot) && st'.callers[id].Made?;
      assert step.Return? && OnItsWay(st, step.id, slot) ==> step.id == id;
    }
    if step.Return? && step.id in st.callers && st.callers[step.id].Missed? {
      CountOneMore(st.built, st.callers[step.id].slot, slot);
      if st.callers[step.id].slot == slot {
        assert OnItsWay(st, step.id, slot) && OnItsWay(st', step.id, slot);
      }
    }
    forall id | slot in st'.instances ensures !OnItsWay(st', id, slot) {
      if slot !in st.instances {
        assert OnItsWay(st, step.id, slot);
      }
      assert OnItsWay(st', id, slot) ==> OnItsWay(st, id, slot);
    }
  }

  /** Over every interleaving in which the callers of a slot come one after another, its factory runs at
      most once. */
  lemma {:induction false} CallsInTurnBuildOnce(st: State, steps: seq<Step>, slot: Slot)
    requires BuiltForOne(st, slot) && InTurn(st, steps, slot)
    ensures BuiltForOne(RunFrom(st, steps), slot)
    decreases |steps|
  {
    hide BuiltForOne;
    if steps != [] {
      StepInTurn(st, steps[0], slot);
      CallsInTurnBuildOnce(Next(st, steps[0]), steps[1..], slot);
    }
  }

  lemma FreshCallsInTurnBuildOnce(steps: seq<Step>, slot: Slot)
    requires InTurn(START, steps, slot)
    ensures Count(RunFrom(START, steps).built, slot) <= 1
  {
    CallsInTurnBuildOnce(START, steps, slot);
  }

  /** Overlapping calls can run the factory twice; both callers still get the first instance stored. */
  lemma OverlappingCallsCanBuildTwice(slot: Slot)
    ensures var steps := [Check(0, slot, 7), Check(1, slot, 7), Return(0), Return(1), Publish(1), Publish(0)];
      var st := RunFrom(START, steps);
      && Count(st.built, slot) == 2 && 0 in st.callers && 1 in st.callers
      && st.callers[0] == st.callers[1] == Got(slot, Instance(7, 1))
  {
    var steps := [Check(0, slot, 7), Check(1, slot, 7), Return(0), Return(1), Publish(1), Publish(0)];
    var s1 := Next(START, steps[0]);
    var s2 := Next(s1, steps[1]);
    var s3 := Next(s2, steps[2]);
    var s4 := Next(s3, steps[3]);
    var s5 := Next(s4, steps[4]);
    var s6 := Next(s5, steps[5]);
    assert s6.built == [slot, slot];
    assert RunFrom(s6, []) == s6;
    assert RunFrom(s5, [Publish(0)]) == s6;
    assert [Publish(1), Publish(0)][1..] == [Publish(0)];
    assert RunFrom(s4, [Publish(1), Publish(0)]) == s6;
    assert steps[1..][1..][1..][1..] == [Publish(1), Publish(0)];
    assert RunFrom(s3, steps[1..][1..][1..]) == s6;
    assert RunFrom(s2, steps[1..][1..]) == s6;
    assert RunFrom(s1, steps[1..]) == s6;
  }
}
