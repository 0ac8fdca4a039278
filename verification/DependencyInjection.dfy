/** The dependency-injection container of src/container.ts. */
module DependencyInjection {
  import opened Common
  import opened Graphs

  datatype Lifetime = Singleton | Transient

  /** How a factory ends once its dependencies are resolved. */
  datatype Outcome = Truthy | Falsy | Throws

  /** A factory resolves `deps` in order through the container and builds `product` from them. */
  datatype Factory = Factory(product: string, deps: seq<string>, outcome: Outcome)
  datatype Value = Value(product: string, parts: seq<Value>, truthy: bool)

  datatype Registration = Registration(factory: Factory, lifetime: Lifetime)
  type Registry = map<string, Registration>

  datatype Error =
    | AlreadyRegistered(name: string)
    | NotFound(name: string)
    | Circular(chain: seq<string>)
    | FactoryThrew(name: string)
  datatype Result<+T> = Ok(value: T) | Err(error: Error)

  // ---- Plain recursive construction, without any cache ----

  /** Builds `name` from scratch; fails on a missing service, a throwing factory or re-entry. */
  ghost function Construct(reg: Registry, active: set<string>, name: string): Option<Value>
    decreases reg.Keys - active, 0
  {
    if name !in reg || name in active then None else
      var f := reg[name].factory;
      match ConstructAll(reg, active + {name}, f.deps)
      case None => None
      case Some(parts) => if f.outcome.Throws? then None else Some(Value(f.product, parts, f.outcome.Truthy?))
  }

  ghost function ConstructAll(reg: Registry, active: set<string>, names: seq<string>): Option<seq<Value>>
    decreases reg.Keys - active, |names|
  {
    if names == [] then Some([]) else
      var k := |names| - 1;
      match ConstructAll(reg, active, names[..k])
      case None => None
      case Some(init) =>
        match Construct(reg, active, names[k])
        case None => None
        case Some(last) => Some(init + [last])
  }

  ghost function DependencyGraph(reg: Registry): Graph<string> {
    map n | n in reg :: reg[n].factory.deps
  }

  /** A service that can be built provided its dependencies can. */
  ghost predicate Sound(reg: Registry, n: string) {
    n in reg && !reg[n].factory.outcome.Throws? && !OnCycle(DependencyGraph(reg), n)
  }

  /** Everything reachable from `name` is registered, does not throw and is on no cycle. */
  ghost predicate Resolvable(reg: Registry, name: string) {
    forall m :: Reaches(DependencyGraph(reg), name, m) ==> Sound(reg, m)
  }

  /** Nothing reachable from `name` is unsound or already under construction. */
  ghost predicate Unobstructed(reg: Registry, active: set<string>, name: string) {
    forall m :: Reaches(DependencyGraph(reg), name, m) ==> Sound(reg, m) && m !in active
  }

  lemma {:induction false} ConstructAllIff(reg: Registry, active: set<string>, names: seq<string>)
    ensures ConstructAll(reg, active, names).Some? <==> forall d :: d in names ==> Construct(reg, active, d).Some?
    decreases |names|
  {
    if names != [] {
      var k := |names| - 1;
      assert names == names[..k] + [names[k]];
      ConstructAllIff(reg, active, names[..k]);
      assert ConstructAll(reg, active, names).Some? <==>
        ConstructAll(reg, active, names[..k]).Some? && Construct(reg, active, names[k]).Some?;
    }
  }

  /** The parts are the dependencies, built one by one in the order they are listed. */
  lemma {:induction false} PartsInOrder(reg: Registry, active: set<string>, names: seq<string>, parts: seq<Value>)
    requires ConstructAll(reg, active, names) == Some(parts)
    ensures |parts| == |names| && forall i :: 0 <= i < |names| ==> Construct(reg, active, names[i]) == Some(parts[i])
    decreases |names|
  {
    if names != [] {
      hide Construct;
      PartsInOrder(reg, active, names[..|names| - 1], parts[..|parts| - 1]);
    }
  }

  lemma {:induction false} UnobstructedUnfold(reg: Registry, active: set<string>, name: string)
    requires name in reg && name !in active
    ensures Unobstructed(reg, active, name) <==>
      && !reg[name].factory.outcome.Throws?
      && forall d :: d in reg[name].factory.deps ==> Unobstructed(reg, active + {name}, d)
  {
    var g := DependencyGraph(reg);
    assert Succ(g, name) == reg[name].factory.deps;
    ReachesSelf(g, name);
    OnCycleUnfold(g, name);
    if Unobstructed(reg, active, name) {
      forall d, m | d in Succ(g, name) && Reaches(g, d, m) ensures Sound(reg, m) && m !in active + {name} {
        ReachesStep(g, name, d, m);
      }
    }
    if !reg[name].factory.outcome.Throws? && forall d :: d in reg[name].factory.deps ==> Unobstructed(reg, active + {name}, d) {
      forall m | Reaches(g, name, m) ensures Sound(reg, m) && m !in active {
        ReachesUnfold(g, name, m);
      }
    }
  }

  /** Cacheless construction succeeds exactly when nothing reachable is unsound or under construction. */
  lemma {:induction false} ConstructSucceedsIff(reg: Registry, active: set<string>, name: string)
    ensures Construct(reg, active, name).Some? <==> Unobstructed(reg, active, name)
    decreases reg.Keys - active
  {
    ReachesSelf(DependencyGraph(reg), name);
    if name in reg && name !in active {
      hide Unobstructed;
      UnobstructedUnfold(reg, active, name);
      var deps := reg[name].factory.deps;
      ConstructAllIff(reg, active + {name}, deps);
      forall d | d in deps ensures Construct(reg, active + {name}, d).Some? <==> Unobstructed(reg, active + {name}, d) {
        ConstructSucceedsIff(reg, active + {name}, d);
      }
    }
  }

  /** A successful construction does not depend on what is under construction around it. */
  lemma {:induction false} ConstructMonotone(reg: Registry, small: set<string>, large: set<string>, name: string)
    requires small <= large && Construct(reg, large, name).Some?
    ensures Construct(reg, small, name) == Construct(reg, large, name)
    decreases reg.Keys - large, 0
  {
    ConstructAllMonotone(reg, small + {name}, large + {name}, reg[name].factory.deps);
  }

  lemma {:induction false} ConstructAllMonotone(reg: Registry, small: set<string>, large: set<string>, names: seq<string>)
    requires small <= large && ConstructAll(reg, large, names).Some?
    ensures ConstructAll(reg, small, names) == ConstructAll(reg, large, names)
    decreases reg.Keys - large, |names|
  {
    if names != [] {
      ConstructAllMonotone(reg, small, large, names[..|names| - 1]);
      ConstructMonotone(reg, small, large, names[|names| - 1]);
    }
  }

  /** Registering a new name does not change what could already be built. */
  lemma {:induction false} ConstructKept(reg: Registry, active: set<string>, name: string, fresh': string, r: Registration)
    requires fresh' !in reg && Construct(reg, active, name).Some?
    ensures Construct(reg[fresh' := r], active, name) == Construct(reg, active, name)
    decreases reg.Keys - active, 0
  {
    ConstructAllKept(reg, active + {name}, reg[name].factory.deps, fresh', r);
  }

  lemma {:induction false} ConstructAllKept(reg: Registry, active: set<string>, names: seq<string>, fresh': string, r: Registration)
    requires fresh' !in reg && ConstructAll(reg, active, names).Some?
    ensures ConstructAll(reg[fresh' := r], active, names) == ConstructAll(reg, active, names)
    decreases reg.Keys - active, |names|
  {
    if names != [] {
      ConstructAllKept(reg, active, names[..|names| - 1], fresh', r);
      ConstructKept(reg, active, names[|names| - 1], fresh', r);
    }
  }

  /** From the outside, a service can be built exactly when it is `Resolvable`. */
  lemma {:induction false} ConstructibleIffResolvable(reg: Registry, name: string)
    ensures Construct(reg, {}, name).Some? <==> Resolvable(reg, name)
  {
    ConstructSucceedsIff(reg, {}, name);
  }

  /** Building a registered service is building its dependencies, each on its own, and not throwing. */
  lemma {:induction false} ConstructFromParts(reg: Registry, name: string)
    requires name in reg
    ensures Construct(reg, {}, name) ==
      match ConstructAll(reg, {}, reg[name].factory.deps)
      case None => None
      case Some(parts) =>
        var f := reg[name].factory;
        if f.outcome.Throws? then None else Some(Value(f.product, parts, f.outcome.Truthy?))
    ensures Construct(reg, {}, name).Some? ==>
      forall d :: d in reg[name].factory.deps ==> !Reaches(DependencyGraph(reg), d, name)
  {
    var g := DependencyGraph(reg);
    var deps := reg[name].factory.deps;
    assert Succ(g, name) == deps;
    assert {} + {name} == {name};
    ConstructSucceedsIff(reg, {}, name);
    ReachesSelf(g, name);
    OnCycleUnfold(g, name);
    if ConstructAll(reg, {name}, deps).Some? {
      ConstructAllMonotone(reg, {}, {name}, deps);
    } else if ConstructAll(reg, {}, deps).Some? {
      ConstructAllIff(reg, {}, deps);
      ConstructAllIff(reg, {name}, deps);
      var d :| d in deps && Construct(reg, {name}, d).None?;
      ConstructSucceedsIff(reg, {}, d);
      ConstructSucceedsIff(reg, {name}, d);
      assert false;
    }
  }

  lemma {:induction false} RegisterAgrees(reg: Registry, kept: Instances, counts: Counts, name: string, r: Registration)
    requires name !in reg && CacheAgrees(reg, kept, counts)
    ensures CacheAgrees(reg[name := r], kept[name := None], counts[name := 0])
  {
    forall n | n in reg && kept[n].Some? ensures Construct(reg[name := r], {}, n) == kept[n] {
      ConstructKept(reg, {}, n, name, r);
    }
  }

  // ---- The container ----

  class Descriptor {
    const name: string
    const factory: Factory
    const lifetime: Lifetime
    var instance: Option<Value>

    constructor (name: string, factory: Factory, lifetime: Lifetime)
      ensures this.name == name && this.factory == factory && this.lifetime == lifetime && instance.None?
    {
      this.name, this.factory, this.lifetime, instance := name, factory, lifetime, None;
    }

    /** The test `descriptor.lifetime === 'singleton' && descriptor.instance`. */
    predicate Cached()
      reads this
    {
      lifetime.Singleton? && instance.Some? && instance.value.truthy
    }
  }

  type Instances = map<string, Option<Value>>
  type Counts = map<string, nat>

  /**
   * A kept instance is the one plain construction gives; a singleton with a truthy product has
   * completed its factory once since it was last cleared if it is cached, and never otherwise.
   */
  ghost predicate CacheAgrees(reg: Registry, kept: Instances, counts: Counts) {
    reg.Keys == kept.Keys && forall n :: n in reg ==>
      && n in counts
      && (kept[n].Some? ==> reg[n].lifetime.Singleton? && Construct(reg, {}, n) == kept[n])
      && (reg[n].lifetime.Singleton? && reg[n].factory.outcome.Truthy? ==> counts[n] == if kept[n].Some? then 1 else 0)
  }

  /**
   * What resolving `names` may do to the caches: counts only grow, a truthy instance stays, and a
   * service none of the names reaches is left alone.
   */
  ghost predicate OnlyFills(reg: Registry, names: seq<string>, kept: Instances, counts: Counts, kept': Instances, counts': Counts) {
    kept.Keys == kept'.Keys && forall n :: n in kept ==>
      && n in counts && n in counts' && counts[n] <= counts'[n]
      && (kept[n].Some? && kept[n].value.truthy ==> kept'[n] == kept[n])
      && ((forall m :: m in names ==> !Reaches(DependencyGraph(reg), m, n)) ==>
            kept'[n] == kept[n] && counts'[n] == counts[n])
  }

  lemma {:induction false} OnlyFillsThen(reg: Registry, names: seq<string>, d: string,
      k0: Instances, c0: Counts, k1: Instances, c1: Counts, k2: Instances, c2: Counts)
    requires OnlyFills(reg, names, k0, c0, k1, c1) && OnlyFills(reg, [d], k1, c1, k2, c2)
    ensures OnlyFills(reg, names + [d], k0, c0, k2, c2)
  {
    var names' := names + [d];
    assert d in names' && forall m :: m in names ==> m in names';
  }

  lemma {:induction false} OnlyFillsMore(reg: Registry, names: seq<string>, names': seq<string>,
      kept: Instances, counts: Counts, kept': Instances, counts': Counts)
    requires OnlyFills(reg, names, kept, counts, kept', counts')
    requires forall i :: 0 <= i < |names| ==> names[i] in names'
    ensures OnlyFills(reg, names', kept, counts, kept', counts')
  {
    assert forall n :: n in names ==> n in names';
  }

  // ---- Which factories run ----

  /** A singleton whose instance, once kept, is returned by every later resolution. */
  predicate Memoised(reg: Registry, n: string) {
    n in reg && reg[n].lifetime.Singleton? && reg[n].factory.outcome.Truthy?
  }

  /** The services whose kept instance is returned without running a factory. */
  ghost function Answered(reg: Registry, kept: Instances): set<string>
    requires reg.Keys == kept.Keys
  {
    set n | n in reg && Memoised(reg, n) && kept[n].Some?
  }

  /** How often the services in `ran` list `t` as a dependency. */
  ghost function Demand(reg: Registry, ran: seq<string>, t: string): nat {
    if ran == [] then 0 else
      var n := ran[|ran| - 1];
      Demand(reg, ran[..|ran| - 1], t) + if n in reg then multiset(reg[n].factory.deps)[t] else 0
  }

  lemma {:induction false} DemandAppend(reg: Registry, a: seq<string>, b: seq<string>, t: string)
    ensures Demand(reg, a + b, t) == Demand(reg, a, t) + Demand(reg, b, t)
  {
    if b == [] {
      assert a + b == a;
    } else {
      assert (a + b)[..|a + b| - 1] == a + b[..|b| - 1];
      DemandAppend(reg, a, b[..|b| - 1], t);
    }
  }

  /** A memoised service completes once when it becomes kept, and never otherwise. */
  ghost predicate OncePerFill(reg: Registry, kept: Instances, kept': Instances, ran: seq<string>)
    requires reg.Keys == kept.Keys == kept'.Keys
  {
    forall n :: Memoised(reg, n) ==> multiset(ran)[n] == if kept'[n].Some? && kept[n].None? then 1 else 0
  }

  /** Only services reached without passing through an answered one complete. */
  ghost predicate OnlyReached(reg: Registry, names: seq<string>, kept: Instances, ran: seq<string>)
    requires reg.Keys == kept.Keys
  {
    forall n :: n in ran ==> ReachesFromSome(DependencyGraph(reg), Answered(reg, kept), names, n)
  }

  /** Exactly the singletons reached without passing through an answered one become kept. */
  ghost predicate KeepsReached(reg: Registry, names: seq<string>, kept: Instances, kept': Instances)
    requires reg.Keys == kept.Keys == kept'.Keys
  {
    forall n :: n in reg && reg[n].lifetime.Singleton? ==>
      (kept'[n].Some? <==> kept[n].Some? || ReachesFromSome(DependencyGraph(reg), Answered(reg, kept), names, n))
  }

  /** Any other service completes once for each time it is asked for, by `names` or by a service that completes. */
  ghost predicate OncePerDemand(reg: Registry, names: seq<string>, ran: seq<string>) {
    forall t :: t in reg && !Memoised(reg, t) ==> multiset(ran)[t] == multiset(names)[t] + Demand(reg, ran, t)
  }

  /** The factories that complete while `names` are resolved from the caches `kept`. */
  ghost predicate Ran(reg: Registry, names: seq<string>, kept: Instances, kept': Instances, ran: seq<string>) {
    && reg.Keys == kept.Keys == kept'.Keys
    && OncePerFill(reg, kept, kept', ran)
    && OnlyReached(reg, names, kept, ran)
    && (ConstructAll(reg, {}, names).Some? ==> KeepsReached(reg, names, kept, kept') && OncePerDemand(reg, names, ran))
  }

  lemma {:induction false} KeptIsTruthy(reg: Registry, kept: Instances, counts: Counts, n: string)
    requires CacheAgrees(reg, kept, counts) && n in reg && kept[n].Some?
    ensures reg[n].lifetime.Singleton? && (Memoised(reg, n) <==> kept[n].value.truthy)
  {
  }

  lemma {:induction false} FillsKeep(reg: Registry, names: seq<string>, k0: Instances, c0: Counts, k1: Instances, c1: Counts)
    requires OnlyFills(reg, names, k0, c0, k1, c1) && CacheAgrees(reg, k0, c0)
    ensures k0.Keys == k1.Keys == reg.Keys && forall n :: Memoised(reg, n) && k0[n].Some? ==> k1[n] == k0[n]
  {
    forall n | Memoised(reg, n) && k0[n].Some? ensures k1[n] == k0[n] {
      KeptIsTruthy(reg, k0, c0, n);
    }
  }

  lemma {:induction false} RanNothing(reg: Registry, names: seq<string>, kept: Instances)
    requires reg.Keys == kept.Keys
    requires names == [] || ConstructAll(reg, {}, names).None? || (|names| == 1 && names[0] in Answered(reg, kept))
    ensures Ran(reg, names, kept, kept, [])
  {
    hide Construct, ConstructAll, ReachesAvoiding;
    if |names| == 1 && names[0] in Answered(reg, kept) {
      forall n ensures !ReachesFromSome(DependencyGraph(reg), Answered(reg, kept), names, n) {
        if ReachesAvoiding(DependencyGraph(reg), Answered(reg, kept), names[0], n) {
          AvoidingEnds(DependencyGraph(reg), Answered(reg, kept), names[0], n);
        }
      }
    }
  }

  lemma {:induction false} ReachedMore(reg: Registry, names: seq<string>, d: string, k0: Instances, k1: Instances, n: string)
    requires reg.Keys == k0.Keys == k1.Keys && Answered(reg, k0) <= Answered(reg, k1)
    requires ReachesFromSome(DependencyGraph(reg), Answered(reg, k1), [d], n)
    ensures ReachesFromSome(DependencyGraph(reg), Answered(reg, k0), names + [d], n)
  {
    var g := DependencyGraph(reg);
    AvoidingLess(g, Answered(reg, k0), Answered(reg, k1), d, n);
    assert (names + [d])[|names|] == d;
  }

  lemma {:induction false} ReachedBefore(reg: Registry, avoid: set<string>, names: seq<string>, d: string, n: string)
    requires ReachesFromSome(DependencyGraph(reg), avoid, names, n)
    ensures ReachesFromSome(DependencyGraph(reg), avoid, names + [d], n)
  {
    var i :| 0 <= i < |names| && ReachesAvoiding(DependencyGraph(reg), avoid, names[i], n);
    assert (names + [d])[i] == names[i];
  }

  lemma {:induction false} OnlyReachedBoth(reg: Registry, names: seq<string>, d: string, k0: Instances, k1: Instances, b1: seq<string>, b2: seq<string>)
    requires reg.Keys == k0.Keys == k1.Keys && Answered(reg, k0) <= Answered(reg, k1)
    requires OnlyReached(reg, names, k0, b1) && OnlyReached(reg, [d], k1, b2)
    ensures OnlyReached(reg, names + [d], k0, b1 + b2)
  {
    hide ReachesFromSome, Answered;
    forall n | n in b1 + b2 ensures ReachesFromSome(DependencyGraph(reg), Answered(reg, k0), names + [d], n) {
      if n in b1 {
        ReachedBefore(reg, Answered(reg, k0), names, d, n);
      } else {
        ReachedMore(reg, names, d, k0, k1, n);
      }
    }
  }

  lemma {:induction false} KeepsReachedBoth(reg: Registry, names: seq<string>, d: string, k0: Instances, k1: Instances, k2: Instances)
    requires reg.Keys == k0.Keys == k1.Keys == k2.Keys && Answered(reg, k0) <= Answered(reg, k1)
    requires KeepsReached(reg, names, k0, k1) && KeepsReached(reg, [d], k1, k2)
    ensures KeepsReached(reg, names + [d], k0, k2)
  {
    var g := DependencyGraph(reg);
    var b0, b1 := Answered(reg, k0), Answered(reg, k1);
    hide ReachesAvoiding;
    forall t | t in b1 - b0 ensures ReachesFromSome(g, b0, names, t) {
      assert k0[t].None? && k1[t].Some?;
    }
    assert b0 + (b1 - b0) == b1;
    forall n ensures ReachesFromSome(g, b0, names + [d], n) <==> ReachesFromSome(g, b0, names, n) || ReachesFromSome(g, b1, [d], n) {
      OneMoreStart(g, b0, names, d, b1 - b0, n);
      OneStart(g, b1, d, n);
    }
  }

  lemma OneStart(g: Graph<string>, avoid: set<string>, d: string, n: string)
    ensures ReachesFromSome(g, avoid, [d], n) <==> ReachesAvoiding(g, avoid, d, n)
  {
    assert [d][0] == d;
  }

  lemma {:induction false} OncePerDemandBoth(reg: Registry, names: seq<string>, d: string, b1: seq<string>, b2: seq<string>)
    requires OncePerDemand(reg, names, b1) && OncePerDemand(reg, [d], b2)
    ensures OncePerDemand(reg, names + [d], b1 + b2)
  {
    forall t | t in reg && !Memoised(reg, t) ensures multiset(b1 + b2)[t] == multiset(names + [d])[t] + Demand(reg, b1 + b2, t) {
      DemandAppend(reg, b1, b2, t);
    }
  }

  lemma {:induction false} OncePerFillBoth(reg: Registry, k0: Instances, k1: Instances, k2: Instances, b1: seq<string>, b2: seq<string>)
    requires reg.Keys == k0.Keys == k1.Keys == k2.Keys && OncePerFill(reg, k0, k1, b1) && OncePerFill(reg, k1, k2, b2)
    requires forall n :: Memoised(reg, n) && k0[n].Some? ==> k1[n] == k0[n]
    requires forall n :: Memoised(reg, n) && k1[n].Some? ==> k2[n] == k1[n]
    ensures OncePerFill(reg, k0, k2, b1 + b2) && Answered(reg, k0) <= Answered(reg, k1)
  {
    assert multiset(b1 + b2) == multiset(b1) + multiset(b2);
  }

  lemma {:induction false} BothConstruct(reg: Registry, names: seq<string>, d: string)
    requires ConstructAll(reg, {}, names + [d]).Some?
    ensures ConstructAll(reg, {}, names).Some? && ConstructAll(reg, {}, [d]).Some? && Construct(reg, {}, d).Some?
  {
    assert (names + [d])[..|names|] == names && [d][..0] == [];
  }

  /** Resolving one more dependency after `names`. */
  lemma {:induction false} RanThen(reg: Registry, names: seq<string>, d: string, k0: Instances, c0: Counts, k1: Instances, c1: Counts,
      k2: Instances, c2: Counts, b1: seq<string>, b2: seq<string>)
    requires CacheAgrees(reg, k0, c0) && CacheAgrees(reg, k1, c1)
    requires OnlyFills(reg, names, k0, c0, k1, c1) && OnlyFills(reg, [d], k1, c1, k2, c2)
    requires Ran(reg, names, k0, k1, b1) && Ran(reg, [d], k1, k2, b2)
    ensures Ran(reg, names + [d], k0, k2, b1 + b2)
  {
    FillsKeep(reg, names, k0, c0, k1, c1);
    FillsKeep(reg, [d], k1, c1, k2, c2);
    OncePerFillBoth(reg, k0, k1, k2, b1, b2);
    hide OncePerFill, OnlyFills, CacheAgrees, OnlyReached, KeepsReached, OncePerDemand, Construct, ConstructAll, ReachesFromSome;
    OnlyReachedBoth(reg, names, d, k0, k1, b1, b2);
    if ConstructAll(reg, {}, names + [d]).Some? {
      BothConstruct(reg, names, d);
      KeepsReachedBoth(reg, names, d, k0, k1, k2);
      OncePerDemandBoth(reg, names, d, b1, b2);
    }
  }

  /** What runs for the dependencies of a service runs for the service, as long as it is not answered. */
  lemma {:induction false} OnlyReachedThrough(reg: Registry, name: string, kept: Instances, ran: seq<string>)
    requires reg.Keys == kept.Keys && name in reg && name !in Answered(reg, kept)
    requires OnlyReached(reg, reg[name].factory.deps, kept, ran)
    ensures OnlyReached(reg, [name], kept, ran) && OnlyReached(reg, [name], kept, ran + [name])
  {
    var g, avoid := DependencyGraph(reg), Answered(reg, kept);
    assert Succ(g, name) == reg[name].factory.deps;
    hide ReachesAvoiding, Answered;
    forall n | n in ran + [name] ensures ReachesFromSome(g, avoid, [name], n) {
      OneStart(g, avoid, name, n);
      AvoidingUnfold(g, avoid, name, n);
    }
  }

  /** A factory that did not complete. */
  lemma {:induction false} RanThrough(reg: Registry, name: string, k0: Instances, k1: Instances, ran: seq<string>)
    requires reg.Keys == k0.Keys && name in reg && name !in Answered(reg, k0)
    requires Ran(reg, reg[name].factory.deps, k0, k1, ran) && Construct(reg, {}, name).None?
    ensures Ran(reg, [name], k0, k1, ran)
  {
    hide OnlyReached, KeepsReached, OncePerDemand, Answered;
    OnlyReachedThrough(reg, name, k0, ran);
    assert [name][..0] == [];
  }

  lemma {:induction false} KeepsReachedThrough(reg: Registry, name: string, k0: Instances, k1: Instances, v: Value)
    requires reg.Keys == k0.Keys == k1.Keys && name in reg && name !in Answered(reg, k0)
    requires KeepsReached(reg, reg[name].factory.deps, k0, k1)
    ensures KeepsReached(reg, [name], k0, if reg[name].lifetime.Singleton? then k1[name := Some(v)] else k1)
  {
    var g, avoid := DependencyGraph(reg), Answered(reg, k0);
    assert Succ(g, name) == reg[name].factory.deps;
    hide ReachesAvoiding, Answered;
    forall n ensures ReachesFromSome(g, avoid, [name], n) <==> n == name || ReachesFromSome(g, avoid, reg[name].factory.deps, n) {
      OneStart(g, avoid, name, n);
      AvoidingUnfold(g, avoid, name, n);
    }
  }

  lemma {:induction false} OncePerFillThrough(reg: Registry, name: string, v: Value, k0: Instances, k1: Instances, ran: seq<string>)
    requires reg.Keys == k0.Keys == k1.Keys && name in reg && name !in Answered(reg, k0)
    requires OncePerFill(reg, k0, k1, ran) && k1[name] == k0[name]
    ensures OncePerFill(reg, k0, if reg[name].lifetime.Singleton? then k1[name := Some(v)] else k1, ran + [name])
  {
    assert multiset(ran + [name]) == multiset(ran) + multiset{name};
  }

  lemma {:induction false} OncePerDemandThrough(reg: Registry, name: string, ran: seq<string>)
    requires name in reg && OncePerDemand(reg, reg[name].factory.deps, ran)
    ensures OncePerDemand(reg, [name], ran + [name])
  {
    hide Memoised;
    assert (ran + [name])[..|ran|] == ran;
    assert multiset(ran + [name]) == multiset(ran) + multiset{name};
    forall t | t in reg && !Memoised(reg, t)
      ensures multiset(ran + [name])[t] == multiset([name])[t] + Demand(reg, ran + [name], t)
    {
    }
  }

  /** A factory that completed after its dependencies were resolved. */
  lemma {:induction false} RanCompletes(reg: Registry, name: string, v: Value, k0: Instances, c0: Counts, k1: Instances, c1: Counts, ran: seq<string>)
    requires name in reg && CacheAgrees(reg, k0, c0) && OnlyFills(reg, reg[name].factory.deps, k0, c0, k1, c1)
    requires Ran(reg, reg[name].factory.deps, k0, k1, ran) && name !in Answered(reg, k0)
    requires Construct(reg, {}, name) == Some(v)
    ensures Ran(reg, [name], k0, if reg[name].lifetime.Singleton? then k1[name := Some(v)] else k1, ran + [name])
  {
    ConstructFromParts(reg, name);
    NotReachedIsKept(reg, name, k0, c0, k1, c1);
    hide Construct, ConstructAll, OnlyReached, KeepsReached, OnlyFills, CacheAgrees, OncePerFill, OncePerDemand, Answered, DependencyGraph;
    OnlyReachedThrough(reg, name, k0, ran);
    KeepsReachedThrough(reg, name, k0, k1, v);
    OncePerFillThrough(reg, name, v, k0, k1, ran);
    OncePerDemandThrough(reg, name, ran);
  }

  lemma {:induction false} NotReachedIsKept(reg: Registry, name: string, k0: Instances, c0: Counts, k1: Instances, c1: Counts)
    requires name in reg && name in k0 && OnlyFills(reg, reg[name].factory.deps, k0, c0, k1, c1)
    requires forall d :: d in reg[name].factory.deps ==> !Reaches(DependencyGraph(reg), d, name)
    ensures k1[name] == k0[name]
  {
  }

  lemma {:induction false} NothingResolved(reg: Registry, names: seq<string>, kept: Instances, counts: Counts)
    requires names == [] && CacheAgrees(reg, kept, counts)
    ensures ConstructAll(reg, {}, names) == Some([]) && OnlyFills(reg, names, kept, counts, kept, counts)
  {
  }

  lemma {:induction false} NothingRan(reg: Registry, names: seq<string>, kept: Instances, counts: Counts)
    requires names == [] && CacheAgrees(reg, kept, counts)
    ensures Ran(reg, names, kept, kept, [])
  {
    RanNothing(reg, names, kept);
  }

  lemma {:induction false} NotAnswered(reg: Registry, name: string, kept: Instances, counts: Counts)
    requires CacheAgrees(reg, kept, counts) && name in reg
    ensures name in Answered(reg, kept) <==> reg[name].lifetime.Singleton? && kept[name].Some? && kept[name].value.truthy
  {
    if kept[name].Some? {
      KeptIsTruthy(reg, kept, counts, name);
    }
  }

  lemma {:induction false} AnsweredRunsNothing(reg: Registry, name: string, kept: Instances, counts: Counts)
    requires CacheAgrees(reg, kept, counts) && name in reg
    requires reg[name].lifetime.Singleton? && kept[name].Some? && kept[name].value.truthy
    ensures Ran(reg, [name], kept, kept, [])
  {
    NotAnswered(reg, name, kept, counts);
    RanNothing(reg, [name], kept);
  }

  lemma {:induction false} NoPart(reg: Registry, name: string)
    requires Construct(reg, {}, name).None?
    ensures ConstructAll(reg, {}, [name]).None?
  {
    assert [name][..0] == [];
  }

  lemma {:induction false} FailedRunsNothing(reg: Registry, name: string, kept: Instances, counts: Counts, r: Result<Value>)
    requires CacheAgrees(reg, kept, counts) && Resolution(reg, name, r) && r.Err?
    ensures Ran(reg, [name], kept, kept, [])
  {
    hide Construct, ConstructAll, Truthful;
    NoPart(reg, name);
    RanNothing(reg, [name], kept);
  }

  lemma {:induction false} FailedRan(reg: Registry, name: string, k0: Instances, k1: Instances, ran: seq<string>, r: Result<Value>)
    requires reg.Keys == k0.Keys && name in reg && name !in Answered(reg, k0)
    requires Ran(reg, reg[name].factory.deps, k0, k1, ran) && Resolution(reg, name, r) && r.Err?
    ensures Ran(reg, [name], k0, k1, ran)
  {
    hide Construct, ConstructAll, Truthful, Ran, Answered;
    RanThrough(reg, name, k0, k1, ran);
  }

  /** The dependencies after the first failing one are not resolved. */
  lemma {:induction false} FailedRanMore(reg: Registry, name: string, names: seq<string>, k0: Instances, k1: Instances, ran: seq<string>, r: Result<Value>)
    requires name in reg && FactoryRun(reg, name, r) && r.Err? && ConstructAll(reg, {}, reg[name].factory.deps).None?
    requires names <= reg[name].factory.deps && Ran(reg, names, k0, k1, ran)
    ensures Ran(reg, reg[name].factory.deps, k0, k1, ran)
  {
    var deps := reg[name].factory.deps;
    hide Construct, ConstructAll, ReachesAvoiding, FactoryRun, KeepsReached, OncePerDemand;
    forall n | n in ran ensures ReachesFromSome(DependencyGraph(reg), Answered(reg, k0), deps, n) {
      var i :| 0 <= i < |names| && ReachesAvoiding(DependencyGraph(reg), Answered(reg, k0), names[i], n);
      assert deps[i] == names[i];
    }
  }

  lemma {:induction false} StackGrows(reg: Registry, stack: seq<string>, name: string)
    requires name in reg && name !in stack
    ensures Elements(stack + [name]) == Elements(stack) + {name} && name !in Elements(stack)
  {
  }

  /** Storing the finished instance of `name` after its dependencies `deps` were resolved. */
  lemma {:induction false} StoreInstance(reg: Registry, name: string, v: Value, k0: Instances, c0: Counts, k1: Instances, c1: Counts)
    requires name in reg && CacheAgrees(reg, k0, c0) && CacheAgrees(reg, k1, c1)
    requires OnlyFills(reg, reg[name].factory.deps, k0, c0, k1, c1)
    requires Construct(reg, {}, name) == Some(v)
    requires reg[name].lifetime.Singleton? && k0[name].Some? ==> !k0[name].value.truthy
    ensures var k2 := if reg[name].lifetime.Singleton? then k1[name := Some(v)] else k1;
            var c2 := c1[name := c1[name] + 1];
            name in c0 && name in c1 && CacheAgrees(reg, k2, c2) && OnlyFills(reg, [name], k0, c0, k2, c2) && c2[name] == c0[name] + 1
  {
    ConstructFromParts(reg, name);
    FillsThrough(reg, name, k0, c0, k1, c1);
    ReachesSelf(DependencyGraph(reg), name);
    assert name in [name];
  }

  /** Filling the caches of the dependencies is filling on behalf of the service itself. */
  lemma {:induction false} FillsThrough(reg: Registry, name: string, k0: Instances, c0: Counts, k1: Instances, c1: Counts)
    requires name in reg && OnlyFills(reg, reg[name].factory.deps, k0, c0, k1, c1)
    ensures OnlyFills(reg, [name], k0, c0, k1, c1)
  {
    var g := DependencyGraph(reg);
    forall n | n in k0 && !Reaches(g, name, n) ensures forall m :: m in reg[name].factory.deps ==> !Reaches(g, m, n) {
      forall m | m in reg[name].factory.deps && Reaches(g, m, n) ensures false {
        assert m in Succ(g, name);
        ReachesStep(g, name, m, n);
      }
    }
    assert name in [name];
  }

  lemma {:induction false} FillsNothing(reg: Registry, names: seq<string>, kept: Instances, counts: Counts)
    requires CacheAgrees(reg, kept, counts)
    ensures OnlyFills(reg, names, kept, counts, kept, counts)
  {
  }

  ghost function Elements(s: seq<string>): set<string> {
    set n | n in s
  }

  /** `stack` is a chain of distinct services, each a dependency of the one before, ending at `name`. */
  ghost predicate IsChain(reg: Registry, stack: seq<string>, name: string) {
    Distinct(stack) && IsWalk(DependencyGraph(reg), stack + [name])
  }

  /** Why a resolution of `name` may fail. */
  ghost predicate Truthful(reg: Registry, name: string, e: Error) {
    match e
    case NotFound(m) => Reaches(DependencyGraph(reg), name, m) && m !in reg
    case FactoryThrew(m) => Reaches(DependencyGraph(reg), name, m) && m in reg && reg[m].factory.outcome.Throws?
    case Circular(chain) =>
      && IsWalk(DependencyGraph(reg), chain)
      && chain[|chain| - 1] in chain[..|chain| - 1]
      && Reaches(DependencyGraph(reg), name, chain[|chain| - 1])
    case AlreadyRegistered(_) => false
  }

  /** The outcome of resolving `name`: the plainly constructed value, or an error that is so. */
  ghost predicate Resolution(reg: Registry, name: string, r: Result<Value>) {
    match Construct(reg, {}, name)
    case Some(v) => r == Ok(v)
    case None => r.Err? && Truthful(reg, name, r.error)
  }

  /** `e` is why the first of `deps` that cannot be built cannot be built. */
  ghost predicate FirstFailure(reg: Registry, deps: seq<string>, e: Error) {
    exists i :: 0 <= i < |deps| && ConstructAll(reg, {}, deps[..i]).Some? && CannotBuild(reg, deps[i], e)
  }

  ghost predicate CannotBuild(reg: Registry, name: string, e: Error) {
    Construct(reg, {}, name).None? && Truthful(reg, name, e)
  }

  /** The outcome of running the factory of `name`: its product, or the failure of the first dependency that fails. */
  ghost predicate FactoryRun(reg: Registry, name: string, r: Result<Value>)
    requires name in reg
  {
    var f := reg[name].factory;
    match ConstructAll(reg, {}, f.deps)
    case Some(parts) =>
      if f.outcome.Throws? then r == Err(FactoryThrew(name)) else r == Ok(Value(f.product, parts, f.outcome.Truthy?))
    case None => r.Err? && FirstFailure(reg, f.deps, r.error)
  }

  lemma {:induction false} FactoryRunResolves(reg: Registry, name: string, r: Result<Value>)
    requires name in reg && FactoryRun(reg, name, r)
    ensures Resolution(reg, name, r) && (r.Ok? ==> Construct(reg, {}, name) == Some(r.value))
  {
    hide Construct, ConstructAll, FirstFailure, DependencyGraph, Reaches, IsWalk;
    ConstructFromParts(reg, name);
    ReachesSelf(DependencyGraph(reg), name);
    if ConstructAll(reg, {}, reg[name].factory.deps).None? {
      FirstFailureIsTruthful(reg, name, r.error);
    }
  }

  lemma {:induction false} FirstFailureIsTruthful(reg: Registry, name: string, e: Error)
    requires name in reg && FirstFailure(reg, reg[name].factory.deps, e)
    ensures Truthful(reg, name, e)
  {
    hide Construct, ConstructAll, Truthful;
    var deps := reg[name].factory.deps;
    var i :| 0 <= i < |deps| && ConstructAll(reg, {}, deps[..i]).Some? && CannotBuild(reg, deps[i], e);
    TruthfulAbove(reg, name, deps[i], e);
  }

  /** Why a dependency cannot be built is why the service that needs it cannot. */
  lemma {:induction false} TruthfulAbove(reg: Registry, name: string, d: string, e: Error)
    requires name in reg && d in reg[name].factory.deps && Truthful(reg, d, e)
    ensures Truthful(reg, name, e)
  {
    var g := DependencyGraph(reg);
    assert d in Succ(g, name);
    match e
    case NotFound(m) => ReachesStep(g, name, d, m);
    case FactoryThrew(m) => ReachesStep(g, name, d, m);
    case Circular(chain) => ReachesStep(g, name, d, chain[|chain| - 1]);
  }

  lemma {:induction false} ChainExtends(reg: Registry, stack: seq<string>, name: string, d: string)
    requires IsChain(reg, stack, name) && name !in stack && name in reg && d in reg[name].factory.deps
    ensures IsChain(reg, stack + [name], d)
  {
    var g := DependencyGraph(reg);
    var w, w' := stack + [name], stack + [name] + [d];
    forall i, j | 0 <= i && j == i + 1 < |w'| ensures w'[j] in Succ(g, w'[i]) {
      assert j < |w| ==> w[j] in Succ(g, w[i]);
    }
  }

  /** A resolution succeeds exactly for the services that can be built. */
  lemma {:induction false} ResolutionDecides(reg: Registry, name: string, r: Result<Value>)
    requires Resolution(reg, name, r)
    ensures r.Ok? <==> Resolvable(reg, name)
  {
    ConstructSucceedsIff(reg, {}, name);
  }

  lemma {:induction false} MissingService(reg: Registry, name: string)
    requires name !in reg
    ensures Resolution(reg, name, Err(NotFound(name)))
  {
    ReachesSelf(DependencyGraph(reg), name);
  }

  /** A service met again on its own chain is on a cycle, and cannot be built. */
  lemma {:induction false} ChainRevisited(reg: Registry, stack: seq<string>, name: string)
    requires IsChain(reg, stack, name) && name in stack
    ensures Resolution(reg, name, Err(Circular(stack + [name])))
  {
    var g := DependencyGraph(reg);
    var w := stack + [name];
    var k := IndexOf(stack, name);
    assert IsCycle(g, w[k..]);
    ReachesSelf(g, name);
    ConstructSucceedsIff(reg, {}, name);
    assert w[..|w| - 1] == stack;
  }

  /** A kept instance is what plain construction gives now. */
  lemma {:induction false} CachedIsConstructed(reg: Registry, name: string, kept: Instances, counts: Counts)
    requires CacheAgrees(reg, kept, counts) && name in reg && kept[name].Some?
    ensures Resolution(reg, name, Ok(kept[name].value))
  {
  }

  /** The first dependency that fails ends the run of the factory with its failure. */
  lemma {:induction false} FailurePropagates(reg: Registry, name: string, i: nat, e: Error)
    requires name in reg && i < |reg[name].factory.deps|
    requires ConstructAll(reg, {}, reg[name].factory.deps[..i]).Some? && Resolution(reg, reg[name].factory.deps[i], Err(e))
    ensures FactoryRun(reg, name, Err(e)) && ConstructAll(reg, {}, reg[name].factory.deps).None?
  {
    var deps := reg[name].factory.deps;
    hide Construct, ConstructAll, Truthful;
    ConstructAllIff(reg, {}, deps);
    assert CannotBuild(reg, deps[i], e);
    assert deps[i] in deps;
  }

  lemma {:induction false} NextPart(reg: Registry, names: seq<string>, i: nat, parts: seq<Value>, part: Result<Value>)
    requires i < |names| && ConstructAll(reg, {}, names[..i]) == Some(parts) && Resolution(reg, names[i], part)
    ensures part.Ok? ==> ConstructAll(reg, {}, names[..i + 1]) == Some(parts + [part.value])
    ensures names[..i + 1] == names[..i] + [names[i]]
  {
    var next := names[..i + 1];
    assert next[..i] == names[..i] && next[|next| - 1] == names[i];
  }

  lemma {:induction false} AllParts(reg: Registry, name: string, parts: seq<Value>)
    requires name in reg && ConstructAll(reg, {}, reg[name].factory.deps) == Some(parts)
    ensures var f := reg[name].factory;
      FactoryRun(reg, name, if f.outcome.Throws? then Err(FactoryThrew(name)) else Ok(Value(f.product, parts, f.outcome.Truthy?)))
  {
  }

  /** The first `i` dependencies are resolved, their values are `parts`, and this is what it did to caches and log. */
  ghost predicate SoFar(reg: Registry, deps: seq<string>, i: nat, parts: seq<Value>,
      k0: Instances, c0: Counts, l0: seq<string>, k: Instances, c: Counts, l: seq<string>)
    requires i <= |deps|
  {
    && ConstructAll(reg, {}, deps[..i]) == Some(parts)
    && OnlyFills(reg, deps[..i], k0, c0, k, c)
    && l0 <= l && Ran(reg, deps[..i], k0, k, l[|l0|..])
  }

  lemma {:induction false} NothingDone(reg: Registry, deps: seq<string>, k0: Instances, c0: Counts, l0: seq<string>)
    requires CacheAgrees(reg, k0, c0)
    ensures SoFar(reg, deps, 0, [], k0, c0, l0, k0, c0, l0)
  {
    assert l0[|l0|..] == [];
    NothingResolved(reg, deps[..0], k0, c0);
    NothingRan(reg, deps[..0], k0, c0);
  }

  lemma {:induction false} OneMoreDone(reg: Registry, name: string, i: nat, parts: seq<Value>, part: Result<Value>,
      k0: Instances, c0: Counts, l0: seq<string>, k1: Instances, c1: Counts, l1: seq<string>, k2: Instances, c2: Counts, l2: seq<string>)
    requires name in reg && i < |reg[name].factory.deps|
    requires CacheAgrees(reg, k0, c0) && CacheAgrees(reg, k1, c1)
    requires SoFar(reg, reg[name].factory.deps, i, parts, k0, c0, l0, k1, c1, l1)
    requires
      var d := reg[name].factory.deps[i];
      Resolution(reg, d, part) && OnlyFills(reg, [d], k1, c1, k2, c2) && l1 <= l2 && Ran(reg, [d], k1, k2, l2[|l1|..])
    ensures part.Ok? ==> SoFar(reg, reg[name].factory.deps, i + 1, parts + [part.value], k0, c0, l0, k2, c2, l2)
    ensures part.Err? ==>
      var deps := reg[name].factory.deps;
      FactoryRun(reg, name, part) && OnlyFills(reg, deps, k0, c0, k2, c2) && l0 <= l2 && Ran(reg, deps, k0, k2, l2[|l0|..])
  {
    hide CacheAgrees, OnlyFills, Ran, FactoryRun, Resolution, ConstructAll, Construct;
    var deps := reg[name].factory.deps;
    OnlyFillsThen(reg, deps[..i], deps[i], k0, c0, k1, c1, k2, c2);
    assert l2[|l0|..] == l1[|l0|..] + l2[|l1|..];
    RanThen(reg, deps[..i], deps[i], k0, c0, k1, c1, k2, c2, l1[|l0|..], l2[|l1|..]);
    NextPart(reg, deps, i, parts, part);
    if part.Err? {
      FailurePropagates(reg, name, i, part.error);
      OnlyFillsMore(reg, deps[..i] + [deps[i]], deps, k0, c0, k2, c2);
      FailedRanMore(reg, name, deps[..i] + [deps[i]], k0, k2, l2[|l0|..], part);
    }
  }

  lemma {:induction false} AllDone(reg: Registry, name: string, parts: seq<Value>,
      k0: Instances, c0: Counts, l0: seq<string>, k: Instances, c: Counts, l: seq<string>)
    requires name in reg && SoFar(reg, reg[name].factory.deps, |reg[name].factory.deps|, parts, k0, c0, l0, k, c, l)
    ensures
      var f := reg[name].factory;
      && FactoryRun(reg, name, if f.outcome.Throws? then Err(FactoryThrew(name)) else Ok(Value(f.product, parts, f.outcome.Truthy?)))
      && OnlyFills(reg, f.deps, k0, c0, k, c) && l0 <= l && Ran(reg, f.deps, k0, k, l[|l0|..])
  {
    hide OnlyFills, Ran, FactoryRun;
    var deps := reg[name].factory.deps;
    assert deps[..|deps|] == deps;
    AllParts(reg, name, parts);
  }

  class Container {
    var services: map<string, Descriptor>
    var resolutionStack: seq<string>
    /** How often each service's factory completed since the service was last cleared. */
    ghost var completions: map<string, nat>
    /** Every completion of a factory so far, never forgotten. */
    ghost var log: seq<string>

    constructor ()
      ensures Valid() && services == map[] && resolutionStack == [] && log == []
    {
      services, resolutionStack, completions, log := map[], [], map[], [];
    }

    ghost function Registered(): Registry
      reads this`services
    {
      map n | n in services :: Registration(services[n].factory, services[n].lifetime)
    }

    ghost function Kept(): Instances
      reads this`services, services.Values
    {
      map n | n in services :: services[n].instance
    }

    ghost predicate Valid()
      reads this`services, this`completions, services.Values
    {
      && (forall n :: n in services ==> services[n].name == n)
      && CacheAgrees(Registered(), Kept(), completions)
    }

    lemma Opened()
      requires Valid()
      ensures CacheAgrees(Registered(), Kept(), completions)
      ensures Registered().Keys == services.Keys && Kept().Keys == services.Keys
      ensures forall n :: n in services ==>
        && services[n].name == n && Kept()[n] == services[n].instance
        && Registered()[n] == Registration(services[n].factory, services[n].lifetime)
        && (services[n].Cached() <==> services[n].lifetime.Singleton? && Kept()[n].Some? && Kept()[n].value.truthy)
    {
    }

    lemma Closed()
      requires CacheAgrees(Registered(), Kept(), completions)
      requires forall n :: n in services ==> services[n].name == n
      ensures Valid()
    {
    }

    /** `descriptor.instance = instance` for a singleton; the factory of `d` has completed. */
    method Store(d: Descriptor, v: Value)
      requires Valid() && d.name in services && services[d.name] == d
      modifies this`completions, this`log, d`instance
      ensures log == old(log) + [d.name]
      ensures Kept() == if d.lifetime.Singleton? then old(Kept())[d.name := Some(v)] else old(Kept())
      ensures completions == old(completions)[d.name := old(completions[d.name]) + 1]
    {
      hide CacheAgrees;
      Opened();
      if d.lifetime.Singleton? {
        d.instance := Some(v);
      }
      completions := completions[d.name := completions[d.name] + 1];
      log := log + [d.name];
    }

    /** `Store` after the dependencies were resolved from the caches `k0` and the counts `c0`. */
    method Complete(d: Descriptor, v: Value, ghost k0: Instances, ghost c0: Counts, ghost ran: seq<string>)
      requires Valid() && d.name in services && services[d.name] == d
      requires CacheAgrees(Registered(), k0, c0) && Construct(Registered(), {}, d.name) == Some(v)
      requires OnlyFills(Registered(), d.factory.deps, k0, c0, Kept(), completions)
      requires d.name in k0 && (d.lifetime.Singleton? && k0[d.name].Some? ==> !k0[d.name].value.truthy)
      requires d.name !in Answered(Registered(), k0) && Ran(Registered(), d.factory.deps, k0, Kept(), ran)
      modifies this`completions, this`log, d`instance
      ensures log == old(log) + [d.name] && Ran(Registered(), [d.name], k0, Kept(), ran + [d.name])
      ensures Valid() && OnlyFills(Registered(), [d.name], k0, c0, Kept(), completions)
      ensures d.name in c0 && d.name in completions && completions[d.name] == c0[d.name] + 1
    {
      hide *;
      Opened();
      StoreInstance(Registered(), d.name, v, k0, c0, Kept(), completions);
      RanCompletes(Registered(), d.name, v, k0, c0, Kept(), completions, ran);
      Store(d, v);
      Closed();
    }

    method Register(name: string, factory: Factory, lifetime: Lifetime) returns (r: Result<()>)
      requires Valid()
      modifies this
      ensures Valid() && resolutionStack == old(resolutionStack) && log == old(log)
      ensures r == if name in old(services) then Err(AlreadyRegistered(name)) else Ok(())
      ensures r.Err? ==> services == old(services) && completions == old(completions)
      ensures fresh(services.Values - old(services.Values))
      ensures r.Ok? ==> Registered() == old(Registered())[name := Registration(factory, lifetime)]
      ensures r.Ok? ==> Kept() == old(Kept())[name := None]
    {
      hide CacheAgrees;
      Opened();
      if name in services {
        return Err(AlreadyRegistered(name));
      }
      ghost var reg := Registered();
      var d := new Descriptor(name, factory, lifetime);
      RegisterAgrees(reg, Kept(), completions, name, Registration(factory, lifetime));
      services := services[name := d];
      completions := completions[name := 0];
      assert Registered() == reg[name := Registration(factory, lifetime)];
      assert Kept() == old(Kept())[name := None];
      r := Ok(());
    }

    /**
     * Resolves `name`. `resolutionStack` is empty on calls from outside and holds the chain of
     * services under construction on calls from a factory.
     */
    method Resolve(name: string) returns (r: Result<Value>)
      requires Valid() && IsChain(Registered(), resolutionStack, name)
      modifies this`resolutionStack, this`completions, this`log, services.Values`instance
      ensures Valid() && resolutionStack == old(resolutionStack)
      ensures r.Ok? <==> Resolvable(Registered(), name)
      ensures Resolution(Registered(), name, r)
      ensures OnlyFills(Registered(), [name], old(Kept()), old(completions), Kept(), completions)
      ensures old(log) <= log && Ran(Registered(), [name], old(Kept()), Kept(), log[|old(log)|..])
      ensures r.Ok? ==> completions[name] == old(completions[name]) + if old(services[name].Cached()) then 0 else 1
      decreases services.Keys - Elements(resolutionStack), 1
    {
      hide *;
      ghost var reg, k0, c0 := Registered(), Kept(), completions;
      assert log[|log|..] == [];
      Opened();
      if name !in services {
        MissingService(reg, name);
        FillsNothing(reg, [name], k0, c0);
        FailedRunsNothing(reg, name, k0, c0, Err(NotFound(name)));
        ResolutionDecides(reg, name, Err(NotFound(name)));
        return Err(NotFound(name));
      }
      var descriptor := services[name];
      if name in resolutionStack {
        ChainRevisited(reg, resolutionStack, name);
        FillsNothing(reg, [name], k0, c0);
        FailedRunsNothing(reg, name, k0, c0, Err(Circular(resolutionStack + [name])));
        ResolutionDecides(reg, name, Err(Circular(resolutionStack + [name])));
        return Err(Circular(resolutionStack + [name]));
      }
      if descriptor.Cached() {
        CachedIsConstructed(reg, name, k0, c0);
        FillsNothing(reg, [name], k0, c0);
        AnsweredRunsNothing(reg, name, k0, c0);
        ResolutionDecides(reg, name, Ok(descriptor.instance.value));
        return Ok(descriptor.instance.value);
      }
      r := Build(descriptor);
      ResolutionDecides(reg, name, r);
    }

    /** The `try ... finally` of `Resolve`: `d` is on the stack while its factory runs, and then taken off. */
    method Build(d: Descriptor) returns (r: Result<Value>)
      requires Valid() && d.name in services && services[d.name] == d && !d.Cached()
      requires IsChain(Registered(), resolutionStack, d.name) && d.name !in resolutionStack
      modifies this`resolutionStack, this`completions, this`log, services.Values`instance
      ensures Valid() && resolutionStack == old(resolutionStack)
      ensures Resolution(Registered(), d.name, r)
      ensures OnlyFills(Registered(), [d.name], old(Kept()), old(completions), Kept(), completions)
      ensures old(log) <= log && Ran(Registered(), [d.name], old(Kept()), Kept(), log[|old(log)|..])
      ensures r.Ok? ==> completions[d.name] == old(completions[d.name]) + 1
      decreases services.Keys - Elements(resolutionStack), 0
    {
      hide *;
      Opened();
      StackGrows(Registered(), resolutionStack, d.name);
      resolutionStack := resolutionStack + [d.name];
      r := RunAndCache(d);
      resolutionStack := resolutionStack[..|resolutionStack| - 1];
    }

    method RunAndCache(d: Descriptor) returns (r: Result<Value>)
      requires Valid() && d.name in services && services[d.name] == d && !d.Cached()
      requires resolutionStack != [] && resolutionStack[|resolutionStack| - 1] == d.name
      requires var below := resolutionStack[..|resolutionStack| - 1];
        IsChain(Registered(), below, d.name) && d.name !in below
      modifies this`resolutionStack, this`completions, this`log, services.Values`instance
      ensures Valid() && resolutionStack == old(resolutionStack)
      ensures Resolution(Registered(), d.name, r)
      ensures OnlyFills(Registered(), [d.name], old(Kept()), old(completions), Kept(), completions)
      ensures old(log) <= log && Ran(Registered(), [d.name], old(Kept()), Kept(), log[|old(log)|..])
      ensures r.Ok? ==> completions[d.name] == old(completions[d.name]) + 1
      decreases services.Keys - Elements(resolutionStack), 3
    {
      hide *;
      ghost var k0, c0, l0 := Kept(), completions, log;
      Opened();
      NotAnswered(Registered(), d.name, k0, c0);
      r := RunFactory(d);
      ghost var ran := log[|l0|..];
      Opened();
      FactoryRunResolves(Registered(), d.name, r);
      if r.Ok? {
        assert (log + [d.name])[|l0|..] == ran + [d.name];
        Complete(d, r.value, k0, c0, ran);
      } else {
        FillsThrough(Registered(), d.name, k0, c0, Kept(), completions);
        FailedRan(Registered(), d.name, k0, Kept(), ran, r);
      }
    }

    /** The call `descriptor.factory(this)`: the dependencies in order, then the product. */
    method RunFactory(d: Descriptor) returns (r: Result<Value>)
      requires Valid() && d.name in services && services[d.name] == d
      requires resolutionStack != [] && resolutionStack[|resolutionStack| - 1] == d.name
      requires var below := resolutionStack[..|resolutionStack| - 1];
        IsChain(Registered(), below, d.name) && d.name !in below
      modifies this`resolutionStack, this`completions, this`log, services.Values`instance
      ensures Valid() && resolutionStack == old(resolutionStack)
      ensures FactoryRun(Registered(), d.name, r)
      ensures OnlyFills(Registered(), d.factory.deps, old(Kept()), old(completions), Kept(), completions)
      ensures old(log) <= log && Ran(Registered(), d.factory.deps, old(Kept()), Kept(), log[|old(log)|..])
      decreases services.Keys - Elements(resolutionStack), 2
    {
      hide *;
      ghost var reg := Registered();
      Opened();
      ghost var below := resolutionStack[..|resolutionStack| - 1];
      assert below + [d.name] == resolutionStack;
      ghost var k0, c0, l0 := Kept(), completions, log;
      var deps := d.factory.deps;
      var parts := [];
      NothingDone(reg, deps, k0, c0, l0);
      for i := 0 to |deps|
        invariant Valid() && resolutionStack == old(resolutionStack)
        invariant SoFar(reg, deps, i, parts, k0, c0, l0, Kept(), completions, log)
      {
        ghost var k1, c1, l1 := Kept(), completions, log;
        Opened();
        ChainExtends(reg, below, d.name, deps[i]);
        var part := Resolve(deps[i]);
        OneMoreDone(reg, d.name, i, parts, part, k0, c0, l0, k1, c1, l1, Kept(), completions, log);
        if part.Err? {
          return part;
        }
        parts := parts + [part.value];
      }
      AllDone(reg, d.name, parts, k0, c0, l0, Kept(), completions, log);
      if d.factory.outcome.Throws? {
        return Err(FactoryThrew(d.name));
      }
      r := Ok(Value(d.factory.product, parts, d.factory.outcome.Truthy?));
    }

    /** Drops the instance of one service; the others, and every registration, stay. */
    method Clear(name: string)
      requires Valid()
      modifies this`completions, services.Values`instance
      ensures Valid()
      ensures name !in services ==> Kept() == old(Kept()) && completions == old(completions)
      ensures name in services ==> Kept() == old(Kept())[name := None] && completions == old(completions)[name := 0]
    {
      if name in services {
        hide CacheAgrees;
        Opened();
        DropInstance(services[name]);
        completions := completions[name := 0];
        DroppingAgrees(Registered(), old(Kept()), old(completions), {name}, Kept(), completions);
      }
    }

    method ClearAll()
      requires Valid()
      modifies this`completions, services.Values`instance
      ensures Valid() && forall n :: n in services ==> Kept()[n] == None && completions[n] == 0
    {
      hide *;
      Opened();
      DropAll();
      completions := map n | n in services :: 0;
      DroppingAgrees(Registered(), old(Kept()), old(completions), services.Keys, Kept(), completions);
      Closed();
    }

    method DropAll()
      requires forall n :: n in services ==> services[n].name == n
      modifies services.Values`instance
      ensures Kept().Keys == services.Keys && forall n :: n in services ==> Kept()[n] == None
    {
      var rest := services.Keys;
      while rest != {}
        invariant rest <= services.Keys
        invariant forall n :: n in services && n !in rest ==> services[n].instance == None
      {
        var n :| n in rest;
        services[n].instance := None;
        rest := rest - {n};
      }
    }

    method DropInstance(d: Descriptor)
      requires d.name in services && services[d.name] == d && forall n :: n in services ==> services[n].name == n
      modifies d`instance
      ensures Kept() == old(Kept())[d.name := None]
    {
      d.instance := None;
    }

    /** A container with the same registrations, its own descriptors and empty caches. */
    method CreateScope() returns (scoped: Container)
      requires Valid()
      ensures fresh(scoped) && fresh(scoped.services.Values)
      ensures scoped.Valid() && scoped.resolutionStack == [] && scoped.log == [] && scoped.Registered() == Registered()
      ensures forall n :: n in scoped.services ==> scoped.Kept()[n] == None
    {
      hide *;
      Opened();
      scoped := new Container();
      var copies := CopyDescriptors();
      scoped.Adopt(copies);
      SameRegistrations(Registered(), scoped.Registered());
    }

    method Adopt(copies: map<string, Descriptor>)
      requires forall n :: n in copies ==> copies[n].name == n && copies[n].instance == None
      modifies this
      ensures services == copies && resolutionStack == old(resolutionStack) && log == old(log) && Valid()
      ensures Registered().Keys == Kept().Keys == copies.Keys && forall n :: n in copies ==>
        && Kept()[n] == None
        && Registered()[n] == Registration(copies[n].factory, copies[n].lifetime)
    {
      hide CacheAgrees;
      services := copies;
      completions := map n | n in services :: 0;
      EmptyAgrees(Registered(), Kept(), completions);
    }

    method CopyDescriptors() returns (copies: map<string, Descriptor>)
      ensures fresh(copies.Values) && copies.Keys == services.Keys
      ensures forall n :: n in copies ==>
        var d := copies[n];
        d.name == n && d.factory == services[n].factory && d.lifetime == services[n].lifetime && d.instance == None
    {
      copies := map[];
      var rest := services.Keys;
      while rest != {}
        invariant rest <= services.Keys && copies.Keys == services.Keys - rest
        invariant forall n :: n in copies ==> fresh(copies[n])
        invariant forall n :: n in copies ==>
          var d := copies[n];
          d.name == n && d.factory == services[n].factory && d.lifetime == services[n].lifetime && d.instance == None
      {
        var n :| n in rest;
        var copy := new Descriptor(n, services[n].factory, services[n].lifetime);
        copies := copies[n := copy];
        rest := rest - {n};
      }
    }
  }

  lemma {:induction false} DroppingAgrees(reg: Registry, kept: Instances, counts: Counts, dropped: set<string>, kept': Instances, counts': Counts)
    requires CacheAgrees(reg, kept, counts) && kept'.Keys == kept.Keys && kept.Keys <= counts'.Keys
    requires forall n :: n in kept && n in dropped ==> kept'[n] == None && counts'[n] == 0
    requires forall n :: n in kept && n !in dropped ==> kept'[n] == kept[n] && n in counts && counts'[n] == counts[n]
    ensures CacheAgrees(reg, kept', counts')
  {
  }

  lemma SameRegistrations(a: Registry, b: Registry)
    requires a.Keys == b.Keys && forall n :: n in a ==> a[n] == b[n]
    ensures a == b
  {
  }

  lemma {:induction false} EmptyAgrees(reg: Registry, kept: Instances, counts: Counts)
    requires reg.Keys == kept.Keys && kept.Keys <= counts.Keys
    requires forall n :: n in kept ==> kept[n] == None && counts[n] == 0
    ensures CacheAgrees(reg, kept, counts)
  {
  }

  /** A scope resolves as its parent does, and leaves the parent's caches alone. */
  method ResolveInScope(parent: Container, name: string) returns (r: Result<Value>)
    requires parent.Valid()
    ensures parent.Valid() && parent.Kept() == old(parent.Kept())
    ensures Resolution(parent.Registered(), name, r)
  {
    hide *;
    var scope := parent.CreateScope();
    EmptyChain(scope.Registered(), name);
    r := scope.Resolve(name);
  }

  lemma {:induction false} EmptyChain(reg: Registry, name: string)
    ensures IsChain(reg, [], name)
  {
  }

  // ---- What a successful resolution leaves behind ----

  /**
   * After `name` was resolved, a memoised service is kept exactly if it was kept before or is
   * reached without passing through one that was; the kept instance is the plainly constructed
   * one, and its factory completed once in the second case and not at all in any other.
   */
  lemma {:induction false} ResolvedSingletons(reg: Registry, name: string, k0: Instances, c0: Counts, k1: Instances, c1: Counts,
      ran: seq<string>, n: string)
    requires CacheAgrees(reg, k0, c0) && CacheAgrees(reg, k1, c1) && Ran(reg, [name], k0, k1, ran)
    requires Construct(reg, {}, name).Some? && Memoised(reg, n)
    ensures
      var around := ReachesAvoiding(DependencyGraph(reg), Answered(reg, k0), name, n);
      && (k1[n].Some? <==> k0[n].Some? || around)
      && (k1[n].Some? ==> k1[n] == Construct(reg, {}, n))
      && multiset(ran)[n] == if around then 1 else 0
  {
    hide Construct, ReachesAvoiding;
    var g := DependencyGraph(reg);
    assert [name][..0] == [];
    OnePart(reg, name);
    OneStart(g, Answered(reg, k0), name, n);
    if ReachesAvoiding(g, Answered(reg, k0), name, n) {
      AvoidingEnds(g, Answered(reg, k0), name, n);
    }
  }

  lemma {:induction false} OnePart(reg: Registry, name: string)
    requires Construct(reg, {}, name).Some?
    ensures ConstructAll(reg, {}, [name]).Some?
  {
    assert [name][..0] == [];
  }

  /** When no service it reaches was kept, everything memoised it reaches is built once and kept. */
  lemma {:induction false} FreshResolution(reg: Registry, name: string, k0: Instances, c0: Counts, k1: Instances, c1: Counts,
      ran: seq<string>, n: string)
    requires CacheAgrees(reg, k0, c0) && CacheAgrees(reg, k1, c1) && Ran(reg, [name], k0, k1, ran)
    requires Construct(reg, {}, name).Some? && Memoised(reg, n) && Reaches(DependencyGraph(reg), name, n)
    requires forall m :: Reaches(DependencyGraph(reg), name, m) && m in k0 ==> k0[m].None?
    ensures k1[n] == Construct(reg, {}, n) && k1[n].Some? && multiset(ran)[n] == 1
  {
    var g, avoid := DependencyGraph(reg), Answered(reg, k0);
    hide Construct, Ran, CacheAgrees;
    ResolvedSingletons(reg, name, k0, c0, k1, c1, ran, n);
    AvoidingUnreachable(g, avoid, name, n);
  }

  lemma {:induction false} AvoidingUnreachable(g: Graph<string>, avoid: set<string>, a: string, b: string)
    requires Reaches(g, a, b) && forall m :: m in avoid ==> !Reaches(g, a, m)
    ensures ReachesAvoiding(g, avoid, a, b)
  {
    var w :| IsWalk(g, w) && w[0] == a && w[|w| - 1] == b;
    forall i | 0 <= i < |w| ensures w[i] !in avoid {
      assert IsWalk(g, w[..i + 1]) && w[..i + 1][0] == a && w[..i + 1][i] == w[i];
    }
    assert Avoids(w, avoid);
  }

  /** "A" depends on "L"; both are truthy singletons. */
  ghost predicate IsPair(reg: Registry) {
    && reg.Keys == {"A", "L"} && Memoised(reg, "A") && Memoised(reg, "L")
    && reg["A"].factory.deps == ["L"] && reg["L"].factory.deps == []
  }

  lemma {:induction false} PairBuilds(reg: Registry)
    requires IsPair(reg)
    ensures Construct(reg, {}, "A").Some? && Reaches(DependencyGraph(reg), "A", "L")
    ensures ReachesAvoiding(DependencyGraph(reg), {}, "A", "L")
  {
    var g := DependencyGraph(reg);
    assert ["L"][..0] == [];
    assert ConstructAll(reg, {"A"} + {"L"}, []).Some?;
    assert Construct(reg, {"A"}, "L").Some?;
    assert ConstructAll(reg, {"A"}, ["L"]).Some?;
    assert {} + {"A"} == {"A"};
    assert ["L"][0] == "L" && Succ(g, "A") == ["L"];
    AvoidingSelf(g, {}, "L");
    AvoidingStep(g, {}, "A", "L", "L");
    AvoidingNothing(g, "A", "L");
  }

  lemma {:induction false} PairResolved(reg: Registry, k0: Instances, c0: Counts, k1: Instances, c1: Counts, ran: seq<string>)
    requires IsPair(reg) && CacheAgrees(reg, k0, c0) && CacheAgrees(reg, k1, c1) && Ran(reg, ["A"], k0, k1, ran)
    ensures k1["A"].Some?
    ensures k0["A"].None? && k0["L"].None? ==> k1["L"].Some?
    ensures k0["A"].Some? && k0["L"].None? ==> k1["L"].None?
  {
    var g, avoid := DependencyGraph(reg), Answered(reg, k0);
    hide Construct, Ran, CacheAgrees, ReachesAvoiding;
    PairBuilds(reg);
    ResolvedSingletons(reg, "A", k0, c0, k1, c1, ran, "A");
    ResolvedSingletons(reg, "A", k0, c0, k1, c1, ran, "L");
    if "A" !in avoid {
      AvoidingSelf(g, avoid, "A");
    } else if ReachesAvoiding(g, avoid, "A", "L") {
      AvoidingEnds(g, avoid, "A", "L");
    }
    assert k0["A"].None? && k0["L"].None? ==> avoid == {};
  }

  method RegisterPair() returns (c: Container)
    ensures fresh(c) && fresh(c.services.Values) && c.Valid() && c.resolutionStack == [] && IsPair(c.Registered())
    ensures c.Kept() == map["L" := None, "A" := None]
  {
    hide CacheAgrees, Construct;
    c := new Container();
    var first := c.Register("L", Factory("leaf", [], Truthy), Singleton);
    var second := c.Register("A", Factory("above", ["L"], Truthy), Singleton);
  }

  method ResolvePair(c: Container) returns (r: Result<Value>)
    requires c.Valid() && c.resolutionStack == [] && IsPair(c.Registered())
    modifies c`resolutionStack, c`completions, c`log, c.services.Values`instance
    ensures c.Valid() && c.resolutionStack == [] && r.Ok? && IsPair(c.Registered()) && "L" in c.services
    ensures c.Kept().Keys == old(c.Kept()).Keys == {"A", "L"} && c.Kept()["A"].Some?
    ensures old(c.Kept()["A"].None? && c.Kept()["L"].None?) ==> c.Kept()["L"].Some?
    ensures old(c.Kept()["A"].Some? && c.Kept()["L"].None?) ==> c.Kept()["L"].None?
  {
    ghost var reg, k0, c0, l0 := c.Registered(), c.Kept(), c.completions, c.log;
    PairBuilds(reg);
    ConstructibleIffResolvable(reg, "A");
    assert reg.Keys == {"A", "L"};
    hide *;
    EmptyChain(reg, "A");
    c.Opened();
    r := c.Resolve("A");
    c.Opened();
    PairResolved(reg, k0, c0, c.Kept(), c.completions, c.log[|l0|..]);
  }

  method ClearLeaf(c: Container)
    requires c.Valid() && "L" in c.services && c.resolutionStack == [] && IsPair(c.Registered())
    requires c.Kept().Keys == {"A", "L"} && c.Kept()["A"].Some?
    modifies c`completions, c.services.Values`instance
    ensures c.Valid() && IsPair(c.Registered()) && c.Kept().Keys == {"A", "L"} && c.Kept()["A"].Some? && c.Kept()["L"].None?
  {
    hide *;
    c.Clear("L");
  }

  /**
   * Without that condition a dependency need not be kept: once it is cleared, resolving a service
   * that is itself still kept does not bring it back.
   */
  method ClearedUnderDependent() returns (c: Container, r: Result<Value>)
    ensures c.Valid() && r.Ok? && IsPair(c.Registered()) && Reaches(DependencyGraph(c.Registered()), "A", "L")
    ensures c.Kept().Keys == {"A", "L"} && c.Kept()["A"].Some? && c.Kept()["L"].None?
  {
    hide *;
    c := RegisterPair();
    PairBuilds(c.Registered());
    assert c.Kept()["A"].None? && c.Kept()["L"].None?;
    r := ResolvePair(c);
    ClearLeaf(c);
    r := ResolvePair(c);
  }
}
