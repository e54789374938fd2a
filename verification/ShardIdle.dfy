/** Idle expiry (src/store.rs:304-310, 1013-1050): the sweep takes only keys that
    have been idle for the whole limit. */
module ShardIdle {
  import opened Units
  import opened Probe
  import opened RecoveryTable
  import opened KeyLaws
  import opened Shard
  import opened ShardIndex
  import ShardSafety
  import ShardRuns

  /** The idle limit as a store keeps it: rounded up, and one millisecond more. */
  function IdleLimit(ttl: nat): nat { CeilMillis(ttl) + 1 }

  /** Both stamps are rounded down, so a measured gap may exceed the true one by
      almost a millisecond; with the extra one a key is taken only once it has
      truly been idle for the whole limit. */
  lemma ExpiredMeansIdle<S>(x: Slot<S>, seen: nat, now: nat, ttl: nat)
    requires seen <= U64_MAX && now <= U64_MAX && ttl <= U64_MAX && Millis(seen) <= x.lastSeen
    requires Expired(x, Millis(now), Some(IdleLimit(ttl)))
    ensures now >= seen + ttl
  {
    CeilMillisIsCeiling(ttl);
    CeilMillisAfter(0, now);
    CeilMillisAfter(0, seen);
  }

  /** A gap of `limit` measured milliseconds is always a true one of `ttl`. */
  ghost predicate Suffices(limit: nat, ttl: nat) {
    forall seen: nat, now: nat :: seen <= now <= U64_MAX && Millis(now) - Millis(seen) >= limit ==> now >= seen + ttl
  }

  lemma CeilIsBelow(ttl: nat)
    requires ttl <= U64_MAX
    ensures CeilMillis(ttl) * NANOS_PER_MILLI < ttl + NANOS_PER_MILLI
    ensures ttl % NANOS_PER_MILLI == 1 ==> CeilMillis(ttl) * NANOS_PER_MILLI == ttl + NANOS_PER_MILLI - 1
    ensures ttl > 0 && ttl % NANOS_PER_MILLI != 1 ==> CeilMillis(ttl) * NANOS_PER_MILLI < ttl + NANOS_PER_MILLI - 1
  {
  }

  /** Exactly when the extra millisecond is needed: without it the limit would do
      only if it is zero or a nanosecond over a whole number of milliseconds. */
  lemma RoundingAloneSufficesIff(ttl: nat)
    requires ttl + 2 * NANOS_PER_MILLI <= U64_MAX
    ensures Suffices(CeilMillis(ttl), ttl) <==> ttl == 0 || ttl % NANOS_PER_MILLI == 1
    ensures Suffices(IdleLimit(ttl), ttl)
  {
    CeilMillisIsCeiling(ttl);
    var limit := CeilMillis(ttl);
    forall seen: nat, now: nat | seen <= now <= U64_MAX
      ensures now - seen >= (Millis(now) - Millis(seen)) * NANOS_PER_MILLI - (NANOS_PER_MILLI - 1)
    {
      CeilMillisAfter(0, now);
      CeilMillisAfter(0, seen);
    }
    if ttl > 0 && ttl % NANOS_PER_MILLI != 1 {
      var seen, now := NANOS_PER_MILLI - 1, limit * NANOS_PER_MILLI;
      CeilIsBelow(ttl);
      assert Millis(seen) == 0 && Millis(now) == limit;
      assert now < seen + ttl;
    } else {
      CeilIsBelow(ttl);
    }
  }

  /** Every slot is still there under its key and stamp, or was idle. */
  ghost predicate OnlyIdleLeft<S(!new)>(xs: set<Slot<S>>, ys: set<Slot<S>>, nowMs: nat, ttl: nat) {
    forall x :: x in xs ==>
      Expired(x, nowMs, Some(ttl)) || exists y :: y in ys && y.key == x.key && y.lastSeen == x.lastSeen
  }

  lemma OnlyIdleTrans<S(!new)>(xs: set<Slot<S>>, ys: set<Slot<S>>, zs: set<Slot<S>>, nowMs: nat, ttl: nat)
    requires OnlyIdleLeft(xs, ys, nowMs, ttl) && OnlyIdleLeft(ys, zs, nowMs, ttl)
    ensures OnlyIdleLeft(xs, zs, nowMs, ttl)
  {
  }

  lemma OnlyIdleSame<S(!new)>(xs: set<Slot<S>>, nowMs: nat, ttl: nat)
    ensures OnlyIdleLeft(xs, xs, nowMs, ttl)
  {
  }

  lemma ReplacedIsThere<S(!new)>(xs: set<Slot<S>>, x: Slot<S>, y: Slot<S>, nowMs: nat, ttl: nat)
    requires x in xs && y.key == x.key && y.lastSeen == x.lastSeen
    ensures OnlyIdleLeft(xs, xs - {x} + {y}, nowMs, ttl)
  {
    forall z | z in xs ensures exists w :: w in xs - {x} + {y} && w.key == z.key && w.lastSeen == z.lastSeen {
      var w := if z == x then y else z;
      assert w in xs - {x} + {y};
    }
  }

  lemma RemovedWasIdle<S(!new)>(xs: set<Slot<S>>, x: Slot<S>, nowMs: nat, ttl: nat)
    requires Expired(x, nowMs, Some(ttl))
    ensures OnlyIdleLeft(xs, xs - {x}, nowMs, ttl)
  {
    forall z | z in xs && z != x ensures exists w :: w in xs - {x} && w.key == z.key && w.lastSeen == z.lastSeen {
      assert z in xs - {x};
    }
  }

  lemma EvictableIsIdle<S(!new)>(c: Config<S>, sh: Shard<S>, pos: nat, now: nat, ttl: nat)
    requires Sound(c.g) && WF(c.g, sh.table) && pos < |sh.slots| && Indexed(c, sh)
    ensures var r := Evictable(c, sh, pos, now).0;
            && Indexed(c, r) && OnlyIdleLeft(Content(sh), Content(r), Millis(now), ttl)
            && r.slots[pos].lastSeen == sh.slots[pos].lastSeen
  {
    hide Indexed, Content, OnlyIdleLeft, HasExactRoom, ExactHint, Sound;
    var x, y := sh.slots[pos], Refreshed(c.ops, sh.slots[pos], now);
    ContentAt(sh, pos);
    ReplaceIndexes(c, sh, pos, y);
    ReplacedIsThere(Content(sh), x, y, Millis(now), ttl);
  }

  /** An eviction removes the slot or reads it. */
  lemma EvictForms<S(!new)>(c: Config<S>, sh: Shard<S>, pos: nat, recovered: bool, now: nat)
    requires Sound(c.g) && WF(c.g, sh.table) && pos < |sh.slots|
    ensures var r := EvictAt(c, sh, pos, recovered, now);
            var y := sh.slots[pos].(state := c.ops.look(sh.slots[pos].state, now));
            || (r.slots == RemoveAt(sh, pos).slots && r.index == RemoveAt(sh, pos).index && r.sweep == sh.sweep)
            || (r.slots == sh.slots[pos := y] && r.index == sh.index && r.sweep == sh.sweep)
  {
    hide Sound, RecordDebt;
  }

  lemma TableAside<S(!new)>(c: Config<S>, sh: Shard<S>, r: Shard<S>)
    ensures sh.slots == r.slots && sh.index == r.index && Indexed(c, sh) ==> Indexed(c, r)
    ensures sh.slots == r.slots ==> Content(sh) == Content(r)
  {
  }

  lemma EvictIsIdle<S(!new)>(c: Config<S>, sh: Shard<S>, pos: nat, recovered: bool, now: nat, ttl: nat)
    requires Sound(c.g) && WF(c.g, sh.table) && pos < |sh.slots| && Indexed(c, sh)
    requires Expired(sh.slots[pos], Millis(now), Some(ttl))
    ensures var r := EvictAt(c, sh, pos, recovered, now);
            Indexed(c, r) && OnlyIdleLeft(Content(sh), Content(r), Millis(now), ttl)
  {
    var x := sh.slots[pos];
    var y := x.(state := c.ops.look(x.state, now));
    ContentAt(sh, pos);
    ReplaceIndexes(c, sh, pos, y);
    RemoveIndexes(c, sh, pos);
    ReplacedIsThere(Content(sh), x, y, Millis(now), ttl);
    RemovedWasIdle(Content(sh), x, Millis(now), ttl);
    EvictForms(c, sh, pos, recovered, now);
    TableAside(c, sh.(slots := sh.slots[pos := y]), EvictAt(c, sh, pos, recovered, now));
    TableAside(c, RemoveAt(sh, pos), EvictAt(c, sh, pos, recovered, now));
    hide Indexed, Content, OnlyIdleLeft, Sound, EvictAt, RemoveAt;
  }

  lemma SweepOneTakesOnlyIdle<S(!new)>(c: Config<S>, sh: Shard<S>, now: nat, ttl: nat)
    requires Sound(c.g) && WF(c.g, sh.table) && |sh.slots| > 0 && Indexed(c, sh)
    ensures var r := SweepOne(c, sh, now, ttl);
            Indexed(c, r) && OnlyIdleLeft(Content(sh), Content(r), Millis(now), ttl)
  {
    hide Indexed, Content, OnlyIdleLeft, Sound, EvictAt, Evictable;
    var at := if sh.sweep >= |sh.slots| then 0 else sh.sweep;
    var sh0 := sh.(sweep := at);
    TableAside(c, sh, sh0);
    TableAside(c, sh, sh.(sweep := at + 1));
    OnlyIdleSame(Content(sh), Millis(now), ttl);
    if Expired(sh.slots[at], Millis(now), Some(ttl)) {
      EvictableIsIdle(c, sh0, at, now, ttl);
      var sh1 := Evictable(c, sh0, at, now).0;
      TableAside(c, sh1, sh1.(sweep := at + 1));
      EvictIsIdle(c, sh1, at, true, now, ttl);
      EvictIsIdle(c, sh1, at, false, now, ttl);
      OnlyIdleTrans(Content(sh), Content(sh1), Content(EvictAt(c, sh1, at, true, now)), Millis(now), ttl);
      OnlyIdleTrans(Content(sh), Content(sh1), Content(EvictAt(c, sh1, at, false, now)), Millis(now), ttl);
    }
  }

  lemma {:induction false} SweepIsIdle<S(!new)>(c: Config<S>, sh: Shard<S>, now: nat, ttl: nat, steps: nat)
    requires Sound(c.g) && WF(c.g, sh.table) && Indexed(c, sh)
    ensures var r := SweepIdle(c, sh, now, ttl, steps);
            Indexed(c, r) && OnlyIdleLeft(Content(sh), Content(r), Millis(now), ttl)
    decreases steps
  {
    hide Indexed, Content, OnlyIdleLeft, Sound, SweepOne;
    OnlyIdleSame(Content(sh), Millis(now), ttl);
    if steps > 0 && |sh.slots| > 0 {
      SweepOneTakesOnlyIdle(c, sh, now, ttl);
      var sh1 := SweepOne(c, sh, now, ttl);
      SweepIsIdle(c, sh1, now, ttl, steps - 1);
      OnlyIdleTrans(Content(sh), Content(sh1), Content(SweepIdle(c, sh1, now, ttl, steps - 1)), Millis(now), ttl);
    }
  }

  /** The idle sweep, through all its swaps, takes only keys that have expired. */
  lemma SweepTakesOnlyTheIdle<S(!new)>(c: Config<S>, sh: Shard<S>, now: nat, ttl: nat, steps: nat, k: nat)
    requires Sound(c.g) && WF(c.g, sh.table) && Indexed(c, sh)
    requires Stored(Content(sh), k) && !Stored(Content(SweepIdle(c, sh, now, ttl, steps)), k)
    ensures exists x :: x in Content(sh) && x.key == k && Expired(x, Millis(now), Some(ttl))
  {
    hide Indexed, Content, Sound, SweepIdle;
    SweepIsIdle(c, sh, now, ttl, steps);
  }

  // ------------------------------------------------------------------- stamps

  /** Who is stored, with what stamp. */
  ghost function Stamps<S(!new)>(slots: seq<Slot<S>>): set<(nat, nat)> { set x | x in slots :: (x.key, x.lastSeen) }

  lemma ReplaceStamps<S(!new)>(slots: seq<Slot<S>>, pos: nat, y: Slot<S>)
    requires pos < |slots| && y.key == slots[pos].key && y.lastSeen == slots[pos].lastSeen
    ensures Stamps(slots[pos := y]) <= Stamps(slots)
  {
    forall x | x in slots[pos := y] ensures (x.key, x.lastSeen) in Stamps(slots) {
      if x == y { assert slots[pos] in slots; }
    }
  }

  lemma RemoveStamps<S(!new)>(sh: Shard<S>, pos: nat)
    requires pos < |sh.slots|
    ensures Stamps(RemoveAt(sh, pos).slots) <= Stamps(sh.slots)
  {
    forall x | x in RemoveAt(sh, pos).slots ensures x in sh.slots {
    }
  }

  lemma EvictableStamps<S(!new)>(c: Config<S>, sh: Shard<S>, pos: nat, now: nat)
    requires Sound(c.g) && WF(c.g, sh.table) && pos < |sh.slots|
    ensures Stamps(Evictable(c, sh, pos, now).0.slots) <= Stamps(sh.slots)
  {
    hide Sound, HasExactRoom, Stamps, ExactHint;
    ReplaceStamps(sh.slots, pos, Refreshed(c.ops, sh.slots[pos], now));
  }

  lemma EvictStamps<S(!new)>(c: Config<S>, sh: Shard<S>, pos: nat, recovered: bool, now: nat)
    requires Sound(c.g) && WF(c.g, sh.table) && pos < |sh.slots|
    ensures Stamps(EvictAt(c, sh, pos, recovered, now).slots) <= Stamps(sh.slots)
  {
    var x := sh.slots[pos];
    EvictForms(c, sh, pos, recovered, now);
    RemoveStamps(sh, pos);
    ReplaceStamps(sh.slots, pos, x.(state := c.ops.look(x.state, now)));
    hide Sound, EvictAt, RemoveAt, Stamps;
  }

  lemma {:induction false} SweepStamps<S(!new)>(c: Config<S>, sh: Shard<S>, now: nat, ttl: nat, steps: nat)
    requires Sound(c.g) && WF(c.g, sh.table)
    ensures Stamps(SweepIdle(c, sh, now, ttl, steps).slots) <= Stamps(sh.slots)
    decreases steps
  {
    hide Sound, Stamps, Evictable, EvictAt, Expired;
    if steps > 0 && |sh.slots| > 0 {
      var at := if sh.sweep >= |sh.slots| then 0 else sh.sweep;
      var sh0 := sh.(sweep := at);
      var sh1 := Evictable(c, sh0, at, now).0;
      EvictableStamps(c, sh0, at, now);
      EvictStamps(c, sh1, at, true, now);
      EvictStamps(c, sh1, at, false, now);
      SweepStamps(c, SweepOne(c, sh, now, ttl), now, ttl, steps - 1);
    }
  }

  lemma {:induction false} FirstPassStamps<S(!new)>(c: Config<S>, s: Scan<S>, start: nat, step: nat, scan: nat,
                                                    now: nat)
    requires Sound(c.g) && WF(c.g, s.shard.table) && |s.shard.slots| > 0 && step <= scan
    requires s.owing.Some? ==> s.owing.value < |s.shard.slots|
    ensures Stamps(FirstPass(c, s, start, step, scan, now).shard.slots) <= Stamps(s.shard.slots)
    decreases scan - step
  {
    hide Sound, Stamps, Evictable, EvictAt, SecondChance;
    if step < scan && !s.done {
      var sh := s.shard;
      var pos := At(start, step, |sh.slots|);
      if SecondChance(sh.slots[pos], Millis(now), c.ttl) {
        var y := sh.slots[pos].(referenced := false, hint := UNKNOWN);
        ReplaceStamps(sh.slots, pos, y);
        FirstPassStamps(c, s.(shard := sh.(slots := sh.slots[pos := y])), start, step + 1, scan, now);
      } else {
        var (sh1, verdict) := Evictable(c, sh, pos, now);
        EvictableStamps(c, sh, pos, now);
        match verdict
        case Recovered => EvictStamps(c, sh1, pos, true, now);
        case Owing =>
          var owing := if s.owing.None? then Some(pos) else s.owing;
          FirstPassStamps(c, s.(shard := sh1, owing := owing), start, step + 1, scan, now);
        case No(at) =>
          FirstPassStamps(c, s.(shard := sh1, earliest := Min(s.earliest, at)), start, step + 1, scan, now);
      }
    }
  }

  lemma {:induction false} SecondPassStamps<S(!new)>(c: Config<S>, s: Scan<S>, start: nat, step: nat, scan: nat,
                                                     now: nat)
    requires Sound(c.g) && WF(c.g, s.shard.table) && |s.shard.slots| > 0 && step <= scan
    ensures Stamps(SecondPass(c, s, start, step, scan, now).shard.slots) <= Stamps(s.shard.slots)
    decreases scan - step
  {
    hide Sound, Stamps, Evictable, EvictAt;
    if step < scan && !s.done {
      var pos := At(start, step, |s.shard.slots|);
      var (sh1, verdict) := Evictable(c, s.shard, pos, now);
      EvictableStamps(c, s.shard, pos, now);
      match verdict
      case Recovered => EvictStamps(c, sh1, pos, true, now);
      case Owing => EvictStamps(c, sh1, pos, false, now);
      case No(at) =>
        SecondPassStamps(c, s.(shard := sh1, earliest := Min(s.earliest, at)), start, step + 1, scan, now);
    }
  }

  lemma EvictOneStamps<S(!new)>(c: Config<S>, sh: Shard<S>, now: nat)
    requires Sound(c.g) && WF(c.g, sh.table)
    ensures Stamps(EvictOne(c, sh, now).0.slots) <= Stamps(sh.slots)
  {
    hide Sound, Stamps, FirstPass, SecondPass, EvictAt;
    if |sh.slots| > 0 {
      var start, scan := Start(sh), Min(CLOCK_SCAN, |sh.slots|);
      var s0 := Scan(sh, false, None, UNKNOWN);
      FirstPassStamps(c, s0, start, 0, scan, now);
      var first := FirstPass(c, s0, start, 0, scan, now);
      if !first.done {
        if first.owing.Some? {
          EvictStamps(c, first.shard, first.owing.value, false, now);
        } else {
          SecondPassStamps(c, first, start, 0, scan, now);
        }
      }
    }
  }

  lemma MakeRoomStamps<S(!new)>(c: Config<S>, sh: Shard<S>, now: nat)
    requires Sound(c.g) && WF(c.g, sh.table)
    ensures Stamps(MakeRoom(c, sh, now).0.slots) <= Stamps(sh.slots)
  {
    hide Sound, Stamps, SweepIdle, EvictOne;
    var swept := if c.ttl.Some? then SweepIdle(c, sh, now, c.ttl.value, TTL_SWEEP) else sh;
    if c.ttl.Some? { SweepStamps(c, sh, now, c.ttl.value, TTL_SWEEP); }
    EvictOneStamps(c, swept, now);
  }

  lemma {:induction false} RetainStamps<S(!new)>(c: Config<S>, sh: Shard<S>, cursor: nat, stop: nat, now: nat)
    requires cursor <= |sh.slots|
    ensures Stamps(RetainDown(c, sh, cursor, stop, now).slots) <= Stamps(sh.slots)
    decreases cursor
  {
    hide Stamps, RemoveAt;
    if cursor > stop {
      var pos := cursor - 1;
      var y := sh.slots[pos].(state := c.ops.look(sh.slots[pos].state, now));
      ReplaceStamps(sh.slots, pos, y);
      RemoveStamps(sh.(slots := sh.slots[pos := y]), pos);
      RetainStamps(c, RetainOne(c, sh, pos, now), pos, stop, now);
    }
  }

  // -------------------------------------------------------------- whole runs

  /** No stamp is older than any check of its key among the first `i` events. */
  ghost predicate StampsAreLast<S(!new)>(slots: seq<Slot<S>>, events: seq<ShardRuns.Event>, i: nat)
    requires i <= |events|
  {
    forall x, j: nat {:trigger x in slots, events[j]} ::
      x in slots && j < i && events[j].Ask? && events[j].key == x.key ==> Millis(events[j].now) <= x.lastSeen
  }

  lemma FewerStamps<S(!new)>(slots: seq<Slot<S>>, fewer: seq<Slot<S>>, events: seq<ShardRuns.Event>, i: nat)
    requires i <= |events| && StampsAreLast(slots, events, i) && Stamps(fewer) <= Stamps(slots)
    ensures StampsAreLast(fewer, events, i)
  {
    forall y, j: nat | y in fewer && j < i && events[j].Ask? && events[j].key == y.key
      ensures Millis(events[j].now) <= y.lastSeen
    {
      assert (y.key, y.lastSeen) in Stamps(fewer);
      var x :| x in slots && (x.key, x.lastSeen) == (y.key, y.lastSeen);
      assert Millis(events[j].now) <= x.lastSeen;
    }
  }

  /** An event that is no check of a stored key leaves the stamps right. */
  lemma OthersStay<S(!new)>(slots: seq<Slot<S>>, events: seq<ShardRuns.Event>, i: nat)
    requires i < |events| && StampsAreLast(slots, events, i)
    requires events[i].Ask? ==> forall x :: x in slots ==> x.key != events[i].key
    ensures StampsAreLast(slots, events, i + 1)
  {
  }

  /** A check of a stored key stamps it. */
  lemma CheckedStamps<S(!new)>(c: Config<S>, sh: Shard<S>, pos: nat, events: seq<ShardRuns.Event>, i: nat)
    requires i < |events| && StampsAreLast(sh.slots, events, i) && KeysDiffer(sh.slots) && c.ttl.Some?
    requires events[i].Ask? && pos < |sh.slots| && sh.slots[pos].key == events[i].key
    ensures StampsAreLast(CheckStored(c, sh, pos, events[i].n, events[i].now).0.slots, events, i + 1)
  {
    var e, r := events[i], CheckStored(c, sh, pos, events[i].n, events[i].now).0.slots;
    forall y, j: nat | y in r && j < i + 1 && events[j].Ask? && events[j].key == y.key
      ensures Millis(events[j].now) <= y.lastSeen
    {
      var p :| 0 <= p < |r| && r[p] == y;
      assert sh.slots[p] in sh.slots && sh.slots[p].key == y.key;
      if j < i { assert Millis(events[j].now) <= sh.slots[p].lastSeen; }
    }
  }

  /** A newcomer is stamped with the check that stores it. */
  lemma AdmittedStamps<S(!new)>(c: Config<S>, sh: Shard<S>, key: nat, s: S, n: nat, now: nat,
                                events: seq<ShardRuns.Event>, i: nat)
    requires Sound(c.g) && WF(c.g, sh.table) && i <= |events| && StampsAreLast(sh.slots, events, i)
    requires forall j: nat :: j < i ==> events[j].now <= now
    ensures StampsAreLast(Admit(c, sh, key, s, n, now).0.slots, events, i)
  {
    hide Sound, Take, FirstHint;
    var r := Admit(c, sh, key, s, n, now).0.slots;
    forall y, j: nat | y in r && j < i && events[j].Ask? && events[j].key == y.key
      ensures Millis(events[j].now) <= y.lastSeen
    {
      if y in sh.slots { assert Millis(events[j].now) <= y.lastSeen; }
      ShardSafety.MillisMonotone(events[j].now, now);
    }
  }

  lemma CheckStamps<S(!new)>(c: Config<S>, sh: Shard<S>, events: seq<ShardRuns.Event>, i: nat)
    requires Sound(c.g) && WF(c.g, sh.table) && Indexed(c, sh) && c.ttl.Some?
    requires i < |events| && events[i].Ask? && StampsAreLast(sh.slots, events, i)
    requires forall j: nat :: j <= i ==> events[j].now <= events[i].now
    ensures var e := events[i]; StampsAreLast(Check(c, sh, e.key, e.n, e.now).shard.slots, events, i + 1)
  {
    var e := events[i];
    LookupIff(c, sh, e.key);
    var pos := Position(sh, c.hash(e.key), e.key);
    if pos.Some? {
      CheckedStamps(c, sh, pos.value, events, i);
      hide Sound, Indexed, StampsAreLast, CheckStored, Position;
    } else {
      assert forall x :: x in sh.slots ==> x in Content(sh);
      OthersStay(sh.slots, events, i);
      var roomy := MakeRoom(c, sh, e.now).0;
      MakeRoomStamps(c, sh, e.now);
      FewerStamps(sh.slots, roomy.slots, events, i + 1);
      var created := c.ops.create(e.key, e.now);
      if created.Some? { AdmittedStamps(c, roomy, e.key, created.value, e.n, e.now, events, i + 1); }
      hide Sound, Indexed, StampsAreLast, MakeRoom, Admit, Position, Content;
    }
  }

  lemma QuietSubset<S(!new)>(c: Config<S>, s: ShardRuns.Sim<S>, e: ShardRuns.Event)
    requires Sound(c.g) && WF(c.g, s.shard.table) && !e.Ask?
    ensures Stamps(ShardRuns.Step(c, s, e).shard.slots) <= Stamps(s.shard.slots)
  {
    hide Sound, Stamps, RetainDown, Position;
    var sh := s.shard;
    match e
    case Look(key, now) =>
      var pos := Position(sh, c.hash(key), key);
      if pos.Some? {
        ReplaceStamps(sh.slots, pos.value, sh.slots[pos.value].(state := c.ops.look(sh.slots[pos.value].state, now)));
      }
    case Chunk(cursor, now) =>
      var from := Min(cursor, |sh.slots|);
      RetainStamps(c, sh, from, SatSub(from, RETAIN_CHUNK), now);
  }

  lemma QuietStamps<S(!new)>(c: Config<S>, s: ShardRuns.Sim<S>, events: seq<ShardRuns.Event>, i: nat)
    requires Sound(c.g) && WF(c.g, s.shard.table) && i < |events| && !events[i].Ask?
             && StampsAreLast(s.shard.slots, events, i)
    ensures StampsAreLast(ShardRuns.Step(c, s, events[i]).shard.slots, events, i + 1)
  {
    OthersStay(s.shard.slots, events, i);
    var r := ShardRuns.Step(c, s, events[i]).shard.slots;
    QuietSubset(c, s, events[i]);
    hide Sound, ShardRuns.Step, StampsAreLast, Stamps;
    FewerStamps(s.shard.slots, r, events, i + 1);
  }

  lemma StepTime<S(!new)>(c: Config<S>, s: ShardRuns.Sim<S>, e: ShardRuns.Event)
    requires Sound(c.g) && WF(c.g, s.shard.table)
    ensures ShardRuns.Step(c, s, e).now == e.now
  {
    hide Sound, Check, Position, RetainDown;
  }

  lemma {:induction false} ReadingsRise<S(!new)>(c: Config<S>, keys: set<nat>, events: seq<ShardRuns.Event>,
                                                 states: seq<ShardRuns.Sim<S>>, i: nat)
    requires Sound(c.g) && ShardRuns.Run(c, keys, events, states) && i < |states|
    ensures forall j: nat :: j < i ==> events[j].now <= states[i].now
    decreases i
  {
    if i > 0 {
      ReadingsRise(c, keys, events, states, i - 1);
      StepTime(c, states[i - 1], events[i - 1]);
      assert ShardRuns.Admissible(c, keys, states[i - 1].now, events[i - 1]);
    }
  }

  lemma NoStamps<S(!new)>(events: seq<ShardRuns.Event>)
    ensures StampsAreLast<S>([], events, 0)
  {
  }

  lemma AskIsCheck<S(!new)>(c: Config<S>, s: ShardRuns.Sim<S>, e: ShardRuns.Event, events: seq<ShardRuns.Event>, i: nat)
    requires Sound(c.g) && WF(c.g, s.shard.table) && e.Ask?
    ensures ShardRuns.Step(c, s, e).shard == Check(c, s.shard, e.key, e.n, e.now).shard
  {
    hide Sound, MakeRoom, Position, Admit, CheckStored;
  }

  /** In every run of a store with an idle limit, every stamp is at least as new as
      every check of its key. */
  lemma {:induction false} RunStamps<S(!new)>(c: Config<S>, keys: set<nat>, events: seq<ShardRuns.Event>,
                                              states: seq<ShardRuns.Sim<S>>, i: nat)
    requires ShardSafety.Setting(c, keys) && !c.forget && c.ttl.Some? && ShardRuns.Run(c, keys, events, states)
             && i < |states|
    ensures StampsAreLast(states[i].shard.slots, events, i)
    decreases i
  {
    hide Orderly, FirstLaw, Sound, ShardSafety.Distinct, ShardRuns.SimInv, Indexed, StampsAreLast;
    if i == 0 {
      NoStamps<S>(events);
    } else {
      var s, e := states[i - 1], events[i - 1];
      assert states[i] == ShardRuns.Step(c, s, e) && ShardRuns.Admissible(c, keys, s.now, e);
      RunStamps(c, keys, events, states, i - 1);
      ShardRuns.EvictionNeverResets(c, keys, events, states, i - 1);
      ReadingsRise(c, keys, events, states, i - 1);
      if e.Ask? {
        CheckStamps(c, s.shard, events, i - 1);
        AskIsCheck(c, s, e, events, i);
      } else {
        QuietStamps(c, s, events, i - 1);
      }
    }
  }

  /** So in every run a key the idle sweep takes has truly not been checked for the
      whole limit. */
  lemma SweptKeysWereIdle<S(!new)>(c: Config<S>, keys: set<nat>, events: seq<ShardRuns.Event>,
                                   states: seq<ShardRuns.Sim<S>>,
                                   i: nat, ttl: nat, now: nat, steps: nat, j: nat)
    requires ShardSafety.Setting(c, keys) && !c.forget && ShardRuns.Run(c, keys, events, states) && i < |states|
    requires c.ttl == Some(IdleLimit(ttl)) && ttl <= U64_MAX && now <= U64_MAX && j < i && events[j].Ask?
    requires WF(c.g, states[i].shard.table) && Stored(Content(states[i].shard), events[j].key)
    requires !Stored(Content(SweepIdle(c, states[i].shard, now, c.ttl.value, steps)), events[j].key)
    ensures now >= events[j].now + ttl
  {
    ShardRuns.EvictionNeverResets(c, keys, events, states, i);
    RunStamps(c, keys, events, states, i);
    assert ShardRuns.Admissible(c, keys, states[j].now, events[j]);
    SweepTakesOnlyTheIdle(c, states[i].shard, now, c.ttl.value, steps, events[j].key);
    hide ShardSafety.Setting, ShardRuns.Run, Indexed, SweepIdle, Expired;
    var x :| x in Content(states[i].shard) && x.key == events[j].key && Expired(x, Millis(now), c.ttl);
    assert x in states[i].shard.slots;
    ExpiredMeansIdle(x, events[j].now, now, ttl);
  }
}
