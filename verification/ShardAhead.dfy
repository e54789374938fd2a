/** What a read ahead can cost (src/store.rs:339-356, 1369-1383): if reading a new
    key's state at the next millisecond forgets its first request, two checks in
    one instant are granted more than the key's own state would grant. */
module ShardAhead {
  import opened Units
  import opened Probe
  import opened RecoveryTable
  import opened KeyLaws
  import opened Shard
  import opened ShardRuns

  /** The next whole millisecond, where `first_hint` reads. */
  function NextMilli(now: nat): nat { (Millis(now) + 1) * NANOS_PER_MILLI }

  /** A first grant of `n` units is whole again by the next millisecond, and
      reading it there forgets it, so that the same is granted again at once;
      the state itself would refuse. */
  ghost predicate Forgets<S(!new)>(o: KeyOps<S>, k: nat, n: nat, now: nat) {
    && o.create(k, now).Some? && n > 0
    && var (d, s) := o.acquire(o.create(k, now).value, n, now);
       && d == Allow && o.isFull(s, NextMilli(now))
       && o.acquire(o.look(s, NextMilli(now)), n, now).0 == Allow
       && o.acquire(s, n, now).0 != Allow
  }

  lemma SweepEmpty<S(!new)>(c: Config<S>, sh: Shard<S>, now: nat, ttl: nat, steps: nat)
    requires Sound(c.g) && WF(c.g, sh.table) && sh.slots == []
    ensures SweepIdle(c, sh, now, ttl, steps) == sh
  {
  }

  lemma EmptyRoom<S(!new)>(c: Config<S>, sh: Shard<S>, now: nat)
    requires Sound(c.g) && WF(c.g, sh.table) && sh.slots == [] && c.cap >= 1
    ensures MakeRoom(c, sh, now) == (sh, None)
  {
    hide Sound;
    if c.ttl.Some? { SweepEmpty(c, sh, now, c.ttl.value, TTL_SWEEP); }
    hide SweepIdle, EvictOne;
  }

  lemma EmptyCharge(g: Geometry, t: Table, h: nat, nowMs: nat)
    requires Sound(g) && WF(g, t) && t.records == []
    ensures Take(g, t, h, nowMs) == (None, t)
  {
  }

  lemma NobodyHome<S(!new)>(sh: Shard<S>, hash: nat, key: nat)
    ensures sh.slots == [] ==> Position(sh, hash, key).None?
    ensures |sh.slots| == 1 && Matches(sh, hash, key, 0) ==> Position(sh, hash, key) == Some(0)
  {
  }

  /** The first check stores a state that has forgotten it. */
  lemma FirstCheck<S(!new)>(c: Config<S>, sh: Shard<S>, k: nat, n: nat, now: nat)
    requires Sound(c.g) && WF(c.g, sh.table) && sh.slots == [] && sh.index == {} && sh.table.records == [] && c.cap >= 1
    requires Forgets(c.ops, k, n, now)
    ensures var r := Check(c, sh, k, n, now);
            var s := c.ops.acquire(c.ops.create(k, now).value, n, now).1;
            && r.decision == Allow && !r.refused && r.shard.table == sh.table
            && |r.shard.slots| == 1 && r.shard.slots[0].key == k && r.shard.slots[0].hash == c.hash(k)
            && (c.hash(k), 0) in r.shard.index && r.shard.slots[0].state == c.ops.look(s, NextMilli(now))
  {
    NobodyHome(sh, c.hash(k), k);
    EmptyRoom(c, sh, now);
    EmptyCharge(c.g, sh.table, c.hash(k), Millis(now));
    hide Sound, MakeRoom, Take, Position;
  }

  /** So the second is granted too, though the key's own state refuses it. */
  lemma SecondCheck<S(!new)>(c: Config<S>, sh: Shard<S>, k: nat, n: nat, now: nat)
    requires Sound(c.g) && WF(c.g, sh.table) && |sh.slots| == 1 && sh.slots[0].key == k
    requires sh.slots[0].hash == c.hash(k) && (c.hash(k), 0) in sh.index
    requires c.ops.acquire(sh.slots[0].state, n, now).0 == Allow
    ensures Check(c, sh, k, n, now).decision == Allow && Position(sh, c.hash(k), k).Some?
  {
    NobodyHome(sh, c.hash(k), k);
    hide Sound, MakeRoom, Admit, Position;
  }

  /** A run of two checks in one instant in which the shard grants what the
      never-evicted map refuses. */
  lemma TwoChecksDisagree<S(!new)>(c: Config<S>, k: nat, n: nat, now: nat) returns (states: seq<Sim<S>>)
    requires Sound(c.g) && c.cap >= 1 && n <= U32_MAX && now + NANOS_PER_MILLI < c.ops.horizon
             && Forgets(c.ops, k, n, now)
    ensures Run(c, {k}, [Ask(k, n, now), Ask(k, n, now)], states)
    ensures !states[2].agreed && states[2].granted == [Grant(k, n, now), Grant(k, n, now)]
  {
    var e := Ask(k, n, now);
    var s0: Sim<S> := Begin();
    FirstCheck(c, s0.shard, k, n, now);
    NobodyHome(s0.shard, c.hash(k), k);
    hide Sound, Check, Position;
    var s1 := Step(c, s0, e);
    assert s1.ideal == map[k := c.ops.acquire(c.ops.create(k, now).value, n, now).1];
    SecondCheck(c, s1.shard, k, n, now);
    var s2 := Step(c, s1, e);
    states := [s0, s1, s2];
  }
}
