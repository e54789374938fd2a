/** From a never-evicted state to a store: a property that one key's own state
    keeps, grant by grant, holds of what a store grants the key, however often it
    is evicted and comes back. */
module StoreKeys {
  import opened Units
  import opened Probe
  import opened KeyLaws
  import opened KeyRuns
  import opened Shard
  import opened ShardSafety
  import opened ShardRuns

  /** The units granted to key `k`, in order. */
  function GrantsTo(granted: seq<Grant>, k: nat): seq<Request> {
    if granted == [] then []
    else
      var g := granted[|granted| - 1];
      GrantsTo(granted[..|granted| - 1], k) + if g.key == k && g.units > 0 then [Request(g.units, g.at)] else []
  }

  lemma GrantsAppend(granted: seq<Grant>, g: Grant, k: nat)
    ensures GrantsTo(granted + [g], k) ==
              GrantsTo(granted, k) + if g.key == k && g.units > 0 then [Request(g.units, g.at)] else []
  {
    assert (granted + [g])[..|granted|] == granted;
  }

  /** A property of a key's grants, its state and the time. */
  type Property<-S> = (seq<Request>, S, nat) -> bool

  /** A fresh state has it, and time, grants of nothing and grants of units keep
      it. */
  ghost predicate Inductive<S(!new)>(o: KeyOps<S>, k: nat, holds: Property<S>) {
    && (forall now: nat :: now < o.horizon && o.create(k, now).Some? ==> holds([], o.create(k, now).value, now))
    && (forall h: seq<Request>, s: S, now: nat, t: nat {:trigger holds(h, s, now), holds(h, s, t)} ::
          holds(h, s, now) && o.valid(k, s, now) && o.native(k, s, now) && now <= t < o.horizon ==> holds(h, s, t))
    && (forall h: seq<Request>, s: S, now: nat, n: nat {:trigger holds(h, s, now), o.acquire(s, n, now)} ::
          holds(h, s, now) && o.valid(k, s, now) && o.native(k, s, now) && now < o.horizon && n <= U32_MAX
          && o.acquire(s, n, now).0 == Allow ==>
            holds(if n > 0 then h + [Request(n, now)] else h, o.acquire(s, n, now).1, now))
  }

  lemma Starts<S(!new)>(o: KeyOps<S>, k: nat, holds: Property<S>, now: nat)
    requires Inductive(o, k, holds) && now < o.horizon && o.create(k, now).Some?
    ensures holds([], o.create(k, now).value, now)
  {
  }

  lemma Lasts<S(!new)>(o: KeyOps<S>, k: nat, holds: Property<S>, h: seq<Request>, s: S, now: nat, t: nat)
    requires Inductive(o, k, holds) && holds(h, s, now) && o.valid(k, s, now) && o.native(k, s, now)
             && now <= t < o.horizon
    ensures holds(h, s, t)
  {
  }

  lemma Grows<S(!new)>(o: KeyOps<S>, k: nat, holds: Property<S>, h: seq<Request>, s: S, now: nat, n: nat)
    requires Inductive(o, k, holds) && holds(h, s, now) && o.valid(k, s, now) && o.native(k, s, now)
    requires now < o.horizon && n <= U32_MAX && o.acquire(s, n, now).0 == Allow
    ensures holds(if n > 0 then h + [Request(n, now)] else h, o.acquire(s, n, now).1, now)
  {
  }

  /** It holds of what the key was granted and of its ideal; nothing was granted
      to a key without one. */
  ghost predicate HoldsOf<S(!new)>(holds: Property<S>, granted: seq<Grant>, ideal: map<nat, S>, now: nat, k: nat) {
    if k in ideal then holds(GrantsTo(granted, k), ideal[k], now) else GrantsTo(granted, k) == []
  }

  /** The ideals before a check, at the time of the check. */
  lemma KnownHolds<S(!new)>(o: KeyOps<S>, k: nat, holds: Property<S>, granted: seq<Grant>, ideal: map<nat, S>,
                            now: nat, t: nat, key: nat)
    requires Inductive(o, k, holds) && HoldsOf(holds, granted, ideal, now, k) && now <= t < o.horizon
    requires k in ideal ==> o.valid(k, ideal[k], now) && o.native(k, ideal[k], now)
    ensures HoldsOf(holds, granted, Known(o, ideal, key, t), t, k) && HoldsOf(holds, granted, ideal, t, k)
  {
    hide Inductive, GrantsTo;
    if k in ideal {
      Lasts(o, k, holds, GrantsTo(granted, k), ideal[k], now, t);
    } else if k == key && o.create(k, t).Some? {
      Starts(o, k, holds, t);
    }
  }

  lemma GrantHolds<S(!new)>(o: KeyOps<S>, k: nat, holds: Property<S>, granted: seq<Grant>, ideal: map<nat, S>,
                            now: nat, key: nat, n: nat)
    requires Inductive(o, k, holds) && HoldsOf(holds, granted, ideal, now, k) && now < o.horizon && n <= U32_MAX
    requires key in ideal && o.valid(key, ideal[key], now) && o.native(key, ideal[key], now)
    requires o.acquire(ideal[key], n, now).0 == Allow
    ensures HoldsOf(holds, granted + [Grant(key, n, now)], ideal[key := o.acquire(ideal[key], n, now).1], now, k)
  {
    hide Inductive, GrantsTo;
    GrantsAppend(granted, Grant(key, n, now), k);
    if k == key {
      Grows(o, k, holds, GrantsTo(granted, k), ideal[k], now, n);
    }
    assert GrantsTo(granted, k) + [] == GrantsTo(granted, k);
  }

  /** A grant of zero units changes nothing. */
  lemma GrantOfNothing<S(!new)>(holds: Property<S>, granted: seq<Grant>, ideal: map<nat, S>, now: nat, k: nat, g: Grant)
    requires HoldsOf(holds, granted, ideal, now, k) && g.units == 0
    ensures HoldsOf(holds, granted + [g], ideal, now, k)
  {
    hide GrantsTo;
    GrantsAppend(granted, g, k);
    assert GrantsTo(granted, k) + [] == GrantsTo(granted, k);
  }

  /** What the invariant says of the ideals. */
  lemma IdealsAre<S(!new)>(c: Config<S>, keys: set<nat>, s: Sim<S>, k: nat)
    requires Sound(c.g) && SimInv(c, keys, s) && k in s.ideal
    ensures c.ops.valid(k, s.ideal[k], s.now) && c.ops.native(k, s.ideal[k], s.now)
  {
    hide Sound, AllGood, AllAway;
  }

  /** And of those a check is judged on. */
  lemma KnownIs<S(!new)>(c: Config<S>, keys: set<nat>, s: Sim<S>, key: nat, t: nat)
    requires Setting(c, keys) && SimInv(c, keys, s) && s.now <= t < c.ops.horizon
    ensures var known := Known(c.ops, s.ideal, key, t);
            key in known ==> c.ops.valid(key, known[key], t) && c.ops.native(key, known[key], t)
  {
    hide Orderly, FirstLaw, Sound, Distinct, SimInv;
    if key in s.ideal {
      IdealsAre(c, keys, s, key);
      Ages(c.ops, key, s.ideal[key], s.now, t);
    } else if c.ops.create(key, t).Some? {
      Fresh(c.ops, key, t);
    }
  }

  lemma AskHolds<S(!new)>(c: Config<S>, keys: set<nat>, holds: Property<S>, s: Sim<S>, e: Event, k: nat)
    requires Setting(c, keys) && SimInv(c, keys, s) && e.Ask? && Admissible(c, keys, s.now, e)
    requires Inductive(c.ops, k, holds) && HoldsOf(holds, s.granted, s.ideal, s.now, k)
    requires AskStep(c, s, e.key, e.n, e.now).agreed
    ensures var s' := AskStep(c, s, e.key, e.n, e.now); HoldsOf(holds, s'.granted, s'.ideal, e.now, k)
  {
    KnownIs(c, keys, s, e.key, e.now);
    if k in s.ideal { IdealsAre(c, keys, s, k); }
    KnownHolds(c.ops, k, holds, s.granted, s.ideal, s.now, e.now, e.key);
    hide Orderly, FirstLaw, Sound, Distinct, Inv, Inductive, HoldsOf, Check, Position;
    var known := Known(c.ops, s.ideal, e.key, e.now);
    if e.key !in known {
      GrantOfNothing(holds, s.granted, known, e.now, k, Grant(e.key, 0, e.now));
    } else if c.ops.acquire(known[e.key], e.n, e.now).0 == Allow {
      GrantHolds(c.ops, k, holds, s.granted, known, e.now, e.key, e.n);
    }
  }

  lemma AgreedIsKept<S(!new)>(c: Config<S>, keys: set<nat>, s: Sim<S>)
    requires Sound(c.g) && SimInv(c, keys, s)
    ensures s.agreed
  {
  }

  /** In every run, what a key was granted has every property its own state keeps. */
  lemma {:induction false} GrantsHold<S(!new)>(c: Config<S>, keys: set<nat>, holds: Property<S>,
                                               events: seq<Event>, states: seq<Sim<S>>, i: nat, k: nat)
    requires Setting(c, keys) && !c.forget && Run(c, keys, events, states) && i < |states|
    requires Inductive(c.ops, k, holds)
    ensures HoldsOf(holds, states[i].granted, states[i].ideal, states[i].now, k)
    decreases i
  {
    hide Orderly, FirstLaw, Sound, Distinct, SimInv, AskStep, Inductive;
    if i > 0 {
      var s, e := states[i - 1], events[i - 1];
      assert states[i] == Step(c, s, e) && Admissible(c, keys, s.now, e);
      GrantsHold(c, keys, holds, events, states, i - 1, k);
      RunKeepsInv(c, keys, events, states, i - 1);
      StepKeepsInv(c, keys, s, e);
      AgreedIsKept(c, keys, states[i]);
      if e.Ask? {
        AskHolds(c, keys, holds, s, e, k);
      } else {
        if k in s.ideal { IdealsAre(c, keys, s, k); }
        KnownHolds(c.ops, k, holds, s.granted, s.ideal, s.now, e.now, k);
      }
    }
  }

  /** A key that can have no state is granted nothing at all, in any run. */
  lemma NoStateNoGrants<S(!new)>(c: Config<S>, keys: set<nat>, events: seq<Event>, states: seq<Sim<S>>, i: nat, k: nat)
    requires Setting(c, keys) && !c.forget && Run(c, keys, events, states) && i < |states|
    requires forall now: nat :: c.ops.create(k, now).None?
    ensures GrantsTo(states[i].granted, k) == []
  {
    hide Orderly, FirstLaw, Sound, Distinct, SimInv, Run;
    GrantsHold(c, keys, (h: seq<Request>, s: S, now: nat) => true, events, states, i, k);
    RunKeepsInv(c, keys, events, states, i);
    if k in states[i].ideal {
      IdealsAre(c, keys, states[i], k);
      HasQuota(c.ops, k, states[i].ideal[k], states[i].now);
    }
  }
}
