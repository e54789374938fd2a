/** `Overflow::Forget` (src/store.rs:514-523, 752-759, 1371-1377): the sketch is
    never written, no key is ever charged from it, no newcomer is ever refused,
    and a key nobody like it left owing starts whole. */
module ShardForget {
  import opened Units
  import opened Probe
  import opened RecoveryTable
  import opened RecoveryRecord
  import opened Shard
  import ShardRuns

  ghost predicate Blank(cells: seq<nat>) { forall c :: 0 <= c < |cells| ==> cells[c] == 0 }

  /** Every record is of an identity in `ids`. */
  ghost predicate RecordsOf(g: Geometry, t: Table, ids: set<Id>) {
    forall p: nat {:trigger IdHere(g, t, p)} :: p < |t.records| && t.records[p].tag != 0 ==> IdHere(g, t, p) in ids
  }

  ghost predicate Unseeded<S(!new)>(slots: seq<Slot<S>>) {
    forall p: nat :: p < |slots| ==> !slots[p].seeded
  }

  ghost predicate TableInv(g: Geometry, t: Table, ids: set<Id>) {
    WF(g, t) && Blank(t.cells) && RecordsOf(g, t, ids)
  }

  ghost predicate Inv<S(!new)>(c: Config<S>, sh: Shard<S>) {
    TableInv(c.g, sh.table, Debtors(sh.marks)) && Unseeded(sh.slots)
  }

  // ------------------------------------------------------------------ table

  lemma PutRecords(g: Geometry, t: Table, p: nat, r: Record, ids: set<Id>)
    requires RecordsOf(g, t, ids) && p < |t.records| && (r.tag != 0 ==> IdAt(g, p / 4, r.tag) in ids)
    ensures RecordsOf(g, Put(t, p, r), ids)
  {
    hide IdAt;
    var u := Put(t, p, r);
    forall q: nat | q < |u.records| && u.records[q].tag != 0 ensures IdHere(g, u, q) in ids {
      if q != p { assert IdHere(g, t, q) in ids; }
    }
  }

  lemma SameRecordsOf(g: Geometry, t: Table, u: Table, ids: set<Id>)
    requires RecordsOf(g, t, ids) && u.records == t.records
    ensures RecordsOf(g, u, ids)
  {
    hide IdAt;
    forall q: nat | q < |u.records| && u.records[q].tag != 0 ensures IdHere(g, u, q) in ids {
      assert IdHere(g, t, q) in ids;
    }
  }

  lemma VictimId(g: Geometry, t: Table, b: nat, r: nat, ids: set<Id>)
    requires 4 * b + r < |t.records| && r < 4 && RecordsOf(g, t, ids) && t.records[4 * b + r].tag != 0
    ensures IdAt(g, b, t.records[4 * b + r].tag) in ids
  {
    hide IdAt;
    assert (4 * b + r) / 4 == b;
    assert IdHere(g, t, 4 * b + r) in ids;
  }

  /** A walk moves records about, each under its own identity. */
  lemma {:induction false} WalkRecords(g: Geometry, t: Table, b: nat, r: nat, homeless: Record, now: nat, kicks: nat,
                                       ids: set<Id>)
    requires Sound(g) && Allocated(g, t) && b < g.buckets && r < 4 && kicks > 0 && RecordsOf(g, t, ids)
    requires IdAt(g, b, homeless.tag) in ids && Movable(t.records[4 * b + r], now)
    ensures RecordsOf(g, Walk(g, t, b, r, homeless, now, kicks).table, ids)
    decreases kicks
  {
    hide RecordsOf, FreeIn, MovableIn, IdAt;
    var victim := t.records[4 * b + r];
    var t1, b1 := Put(t, 4 * b + r, homeless), g.alt(b, victim.tag);
    VictimId(g, t, b, r, ids);
    MovingKeepsId(g, b, victim.tag);
    assert (4 * b + r) / 4 == b;
    PutRecords(g, t, 4 * b + r, homeless, ids);
    var free, next := FreeIn(t1, b1, now), MovableIn(t1, b1, now);
    if free.Some? {
      assert (4 * b1 + free.value) / 4 == b1;
      PutRecords(g, t1, 4 * b1 + free.value, victim, ids);
    } else {
      SameRecordsOf(g, t1, Turned(t1), ids);
      if kicks > 1 && next.Some? {
        WalkRecords(g, Turned(t1), b1, next.value, victim, now, kicks - 1, ids);
      }
    }
  }

  lemma DisplaceForgets(g: Geometry, t: Table, debt: Record, home: nat, now: nat, kicks: nat, ids: set<Id>)
    requires Sound(g) && Allocated(g, t) && home < g.buckets && kicks > 0 && RecordsOf(g, t, ids)
    requires IdAt(g, home, debt.tag) in ids
    ensures var o := Displace(g, t, debt, home, now, true, kicks);
            RecordsOf(g, o.table, ids) && o.table.cells == t.cells
  {
    hide RecordsOf, MovableIn, Walk, IdAt;
    var t1, t2, other := Turned(t), Turned(Turned(t)), g.alt(home, debt.tag);
    var first, second := MovableIn(t, home, now), MovableIn(t1, other, now);
    SameRecordsOf(g, t, t1, ids);
    SameRecordsOf(g, t, t2, ids);
    MovingKeepsId(g, home, debt.tag);
    if first.Some? {
      WalkRecords(g, t1, home, first.value, debt, now, kicks, ids);
      var w := Walk(g, t1, home, first.value, debt, now, kicks);
      SameRecordsOf(g, w.table, w.table.(backoff := WALK_BACKOFF), ids);
    } else if second.Some? {
      WalkRecords(g, t2, other, second.value, debt, now, kicks, ids);
      var w := Walk(g, t2, other, second.value, debt, now, kicks);
      SameRecordsOf(g, w.table, w.table.(backoff := WALK_BACKOFF), ids);
    }
  }

  lemma AllocateForgets(g: Geometry, t: Table, ids: set<Id>)
    requires Sound(g) && TableInv(g, t, ids)
    ensures TableInv(g, Allocate(g, t), ids) && Allocated(g, Allocate(g, t))
  {
  }

  lemma OwnId(g: Geometry, t: Table, h: nat, now: nat)
    requires Sound(g) && WF(g, t) && Own(g, t, h, now).Some?
    ensures IdHere(g, t, Own(g, t, h, now).value) == IdOf(g, h)
  {
    hide OwnIn;
    MovingKeepsId(g, g.homeOf(h), g.tagOf(h));
  }

  /** Under Forget, recording touches no cell and adds one identity at most. */
  lemma RecordForgets(g: Geometry, t0: Table, h: nat, spent: nat, until: nat, now: nat, inherited: bool, ids: set<Id>)
    requires Sound(g) && TableInv(g, t0, ids) && IdOf(g, h) in ids
    ensures TableInv(g, RecordDebt(g, t0, h, spent, until, now, true, inherited).table, ids)
  {
    hide RecordsOf, Blank, Own, FreeIn, Displace, IdAt;
    AllocateForgets(g, t0, ids);
    var t := Allocate(g, t0);
    var debt, home := DebtOf(g, h, spent, until, inherited), g.homeOf(h);
    var other := g.alt(home, debt.tag);
    MovingKeepsId(g, home, debt.tag);
    if Own(g, t, h, now).Some? {
      var p := Own(g, t, h, now).value;
      OwnId(g, t, h, now);
      PutRecords(g, t, p, Merged(t.records[p], debt), ids);
    } else if FreeIn(t, home, now).Some? {
      PutRecords(g, t, 4 * home + FreeIn(t, home, now).value, debt, ids);
    } else if FreeIn(t, other, now).Some? {
      PutRecords(g, t, 4 * other + FreeIn(t, other, now).value, debt, ids);
    } else {
      var t1 := t.(backoff := SatSub(t.backoff, 1));
      SameRecordsOf(g, t, t1, ids);
      DisplaceForgets(g, t, debt, home, now, MAX_KICKS, ids);
      DisplaceForgets(g, t1, debt, home, now, 1, ids);
    }
  }

  lemma RecordIsOf(g: Geometry, t: Table, p: nat, ids: set<Id>)
    requires RecordsOf(g, t, ids) && p < |t.records| && t.records[p].tag != 0
    ensures IdHere(g, t, p) in ids
  {
  }

  /** A blank sketch charges nobody, and the exact table only its own. */
  lemma ChargeForgets(g: Geometry, t: Table, h: nat, now: nat, ids: set<Id>)
    requires Sound(g) && TableInv(g, t, ids)
    ensures var charge := PeekCharge(g, t, h, now);
            charge.Some? ==> !charge.value.shared && IdOf(g, h) in ids
  {
    hide Own, RecordsOf, IdAt;
    if t.records != [] && Own(g, t, h, now).Some? {
      OwnId(g, t, h, now);
      RecordIsOf(g, t, Own(g, t, h, now).value, ids);
    }
  }

  lemma ForgetRecords(g: Geometry, t: Table, h: nat, now: nat, ids: set<Id>)
    requires Sound(g) && TableInv(g, t, ids)
    ensures TableInv(g, Forget(g, t, h, now), ids)
  {
    hide Own, RecordsOf, IdAt;
    var own := Own(g, t, h, now);
    if own.Some? { PutRecords(g, t, own.value, EMPTY, ids); }
  }

  lemma MoreIds(g: Geometry, t: Table, ids: set<Id>, more: set<Id>)
    requires TableInv(g, t, ids) && ids <= more
    ensures TableInv(g, t, more)
  {
    hide IdAt, WF, Blank;
  }

  // ------------------------------------------------------------------ steps

  lemma TableIsWF<S(!new)>(c: Config<S>, sh: Shard<S>)
    requires Inv(c, sh)
    ensures WF(c.g, sh.table) && TableInv(c.g, sh.table, Debtors(sh.marks))
  {
  }

  lemma EvictableForgets<S(!new)>(c: Config<S>, sh: Shard<S>, pos: nat, now: nat)
    requires Sound(c.g) && Inv(c, sh) && pos < |sh.slots|
    ensures Inv(c, Evictable(c, sh, pos, now).0) && !Evictable(c, sh, pos, now).1.No?
  {
    hide Sound, TableInv, HasExactRoom, ExactHint;
    assert TableInv(c.g, sh.table, Debtors(sh.marks)) && WF(c.g, sh.table) by { TableIsWF(c, sh); }
  }

  lemma EvictAtForgets<S(!new)>(c: Config<S>, sh: Shard<S>, pos: nat, recovered: bool, now: nat)
    requires Sound(c.g) && c.forget && Inv(c, sh) && pos < |sh.slots|
    ensures Inv(c, EvictAt(c, sh, pos, recovered, now))
  {
    TableIsWF(c, sh);
    hide Sound, TableInv, RecordDebt, IdOf;
    var x := sh.slots[pos];
    var debt := c.ops.debt(x.state, now);
    if debt.Some? {
      PlainAlwaysRecorded(c.g, sh.table, x.hash, debt.value.spent, CeilMillis(debt.value.until), Millis(now), true);
      var ids := Debtors(sh.marks) + {IdOf(c.g, x.hash)};
      MoreIds(c.g, sh.table, Debtors(sh.marks), ids);
      RecordForgets(c.g, sh.table, x.hash, debt.value.spent, CeilMillis(debt.value.until), Millis(now), false, ids);
    }
  }

  lemma SweepOneForgets<S(!new)>(c: Config<S>, sh: Shard<S>, now: nat, ttl: nat)
    requires Sound(c.g) && c.forget && Inv(c, sh) && |sh.slots| > 0
    ensures WF(c.g, sh.table) && Inv(c, SweepOne(c, sh, now, ttl))
  {
    TableIsWF(c, sh);
    var at := if sh.sweep >= |sh.slots| then 0 else sh.sweep;
    var sh0 := sh.(sweep := at);
    EvictableForgets(c, sh0, at, now);
    var sh1 := Evictable(c, sh0, at, now).0;
    EvictAtForgets(c, sh1, at, true, now);
    EvictAtForgets(c, sh1, at, false, now);
    hide Sound, TableInv, Evictable, EvictAt, Expired;
  }

  lemma {:induction false} SweepForgets<S(!new)>(c: Config<S>, sh: Shard<S>, now: nat, ttl: nat, steps: nat)
    requires Sound(c.g) && c.forget && Inv(c, sh)
    ensures WF(c.g, sh.table) && Inv(c, SweepIdle(c, sh, now, ttl, steps))
    decreases steps
  {
    TableIsWF(c, sh);
    hide Sound, Inv, SweepOne;
    if steps > 0 && |sh.slots| > 0 {
      SweepOneForgets(c, sh, now, ttl);
      SweepForgets(c, SweepOne(c, sh, now, ttl), now, ttl, steps - 1);
    }
  }

  lemma FinishForgets<S(!new)>(c: Config<S>, sh: Shard<S>, pos: nat, recovered: bool, now: nat)
    requires Sound(c.g) && c.forget && Inv(c, sh) && pos < |sh.slots|
    ensures WF(c.g, sh.table) && Inv(c, FinishEviction(c, sh, pos, recovered, now))
  {
    TableIsWF(c, sh);
    EvictAtForgets(c, sh, pos, recovered, now);
    hide Sound, TableInv, EvictAt;
  }

  lemma {:induction false} FirstPassForgets<S(!new)>(c: Config<S>, s: Scan<S>, start: nat, step: nat, scan: nat,
                                                     now: nat)
    requires Sound(c.g) && c.forget && Inv(c, s.shard) && |s.shard.slots| > 0 && step <= scan
    requires s.owing.Some? ==> s.owing.value < |s.shard.slots|
    ensures WF(c.g, s.shard.table) && Inv(c, FirstPass(c, s, start, step, scan, now).shard)
    decreases scan - step
  {
    TableIsWF(c, s.shard);
    hide Sound, TableInv, Evictable, EvictAt, SecondChance;
    if step < scan && !s.done {
      var sh := s.shard;
      var pos := At(start, step, |sh.slots|);
      if SecondChance(sh.slots[pos], Millis(now), c.ttl) {
        var sh1 := sh.(slots := sh.slots[pos := sh.slots[pos].(referenced := false, hint := UNKNOWN)]);
        FirstPassForgets(c, s.(shard := sh1), start, step + 1, scan, now);
      } else {
        var (sh1, verdict) := Evictable(c, sh, pos, now);
        EvictableForgets(c, sh, pos, now);
        if verdict.Recovered? {
          FinishForgets(c, sh1, pos, true, now);
        } else {
          FirstPassForgets(c, s.(shard := sh1, owing := if s.owing.None? then Some(pos) else s.owing), start,
            step + 1, scan, now);
        }
      }
    }
  }

  /** The second pass evicts the first slot it looks at. */
  lemma SecondPassForgets<S(!new)>(c: Config<S>, s: Scan<S>, start: nat, scan: nat, now: nat)
    requires Sound(c.g) && c.forget && Inv(c, s.shard) && |s.shard.slots| > 0 && scan > 0 && !s.done
    ensures WF(c.g, s.shard.table)
    ensures var r := SecondPass(c, s, start, 0, scan, now); r.done && Inv(c, r.shard)
  {
    TableIsWF(c, s.shard);
    var pos := At(start, 0, |s.shard.slots|);
    EvictableForgets(c, s.shard, pos, now);
    hide Sound, Inv, Evictable, EvictAt;
    var sh1 := Evictable(c, s.shard, pos, now).0;
    FinishForgets(c, sh1, pos, true, now);
    FinishForgets(c, sh1, pos, false, now);
  }

  lemma EvictOneForgets<S(!new)>(c: Config<S>, sh: Shard<S>, now: nat)
    requires Sound(c.g) && c.forget && Inv(c, sh)
    ensures WF(c.g, sh.table) && Inv(c, EvictOne(c, sh, now).0) && EvictOne(c, sh, now).1.None?
  {
    TableIsWF(c, sh);
    hide Sound, Inv, FirstPass, SecondPass, EvictAt;
    if |sh.slots| > 0 {
      var start, scan := Start(sh), Min(CLOCK_SCAN, |sh.slots|);
      var s0 := Scan(sh, false, None, UNKNOWN);
      FirstPassForgets(c, s0, start, 0, scan, now);
      var first := FirstPass(c, s0, start, 0, scan, now);
      if !first.done {
        if first.owing.Some? {
          FinishForgets(c, first.shard, first.owing.value, false, now);
        } else {
          SecondPassForgets(c, first, start, scan, now);
        }
      }
    }
  }

  /** No newcomer is refused. */
  lemma MakeRoomForgets<S(!new)>(c: Config<S>, sh: Shard<S>, now: nat)
    requires Sound(c.g) && c.forget && Inv(c, sh)
    ensures WF(c.g, sh.table) && Inv(c, MakeRoom(c, sh, now).0) && MakeRoom(c, sh, now).1.None?
  {
    TableIsWF(c, sh);
    hide Sound, Inv, SweepIdle, EvictOne;
    var swept := if c.ttl.Some? then SweepIdle(c, sh, now, c.ttl.value, TTL_SWEEP) else sh;
    if c.ttl.Some? { SweepForgets(c, sh, now, c.ttl.value, TTL_SWEEP); }
    if |swept.slots| >= c.cap { EvictOneForgets(c, swept, now); }
  }

  lemma AdmitForgets<S(!new)>(c: Config<S>, sh: Shard<S>, key: nat, s: S, n: nat, now: nat)
    requires Sound(c.g) && c.forget && Inv(c, sh)
    ensures WF(c.g, sh.table) && Inv(c, Admit(c, sh, key, s, n, now).0)
  {
    TableIsWF(c, sh);
    var h := c.hash(key);
    ChargeForgets(c.g, sh.table, h, Millis(now), Debtors(sh.marks));
    ForgetRecords(c.g, sh.table, h, Millis(now), Debtors(sh.marks));
    hide Sound, TableInv, PeekCharge, Forget, FirstHint;
  }

  lemma CheckForgets<S(!new)>(c: Config<S>, sh: Shard<S>, key: nat, n: nat, now: nat)
    requires Sound(c.g) && c.forget && Inv(c, sh)
    ensures WF(c.g, sh.table)
    ensures var r := Check(c, sh, key, n, now); Inv(c, r.shard) && !r.refused
  {
    TableIsWF(c, sh);
    MakeRoomForgets(c, sh, now);
    var created := c.ops.create(key, now);
    if created.Some? { AdmitForgets(c, MakeRoom(c, sh, now).0, key, created.value, n, now); }
    hide Sound, TableInv, MakeRoom, Admit, Position;
  }

  lemma RetainOneForgets<S(!new)>(c: Config<S>, sh: Shard<S>, pos: nat, now: nat)
    requires Inv(c, sh) && pos < |sh.slots|
    ensures Inv(c, RetainOne(c, sh, pos, now))
  {
    hide TableInv;
  }

  lemma {:induction false} RetainForgets<S(!new)>(c: Config<S>, sh: Shard<S>, cursor: nat, stop: nat, now: nat)
    requires Inv(c, sh) && cursor <= |sh.slots|
    ensures Inv(c, RetainDown(c, sh, cursor, stop, now))
    decreases cursor
  {
    hide Inv;
    if cursor > stop {
      RetainOneForgets(c, sh, cursor - 1, now);
      RetainForgets(c, RetainOne(c, sh, cursor - 1, now), cursor - 1, stop, now);
    }
  }

  lemma ChunkForgets<S(!new)>(c: Config<S>, sh: Shard<S>, cursor: nat, now: nat)
    requires Inv(c, sh)
    ensures Inv(c, RetainChunk(c, sh, cursor, now).0)
  {
    var from := Min(cursor, |sh.slots|);
    RetainForgets(c, sh, from, SatSub(from, RETAIN_CHUNK), now);
    hide RetainDown, IsSpent;
  }

  // -------------------------------------------------------------- whole runs

  lemma StepForgets<S(!new)>(c: Config<S>, s: ShardRuns.Sim<S>, e: ShardRuns.Event)
    requires Sound(c.g) && c.forget && Inv(c, s.shard)
    ensures WF(c.g, s.shard.table) && Inv(c, ShardRuns.Step(c, s, e).shard)
  {
    TableIsWF(c, s.shard);
    hide Sound, TableInv, Check, Position, RetainChunk, ShardRuns.Known;
    match e
    case Ask(key, n, now) => CheckForgets(c, s.shard, key, n, now);
    case Look(key, now) =>
    case Chunk(cursor, now) => ChunkForgets(c, s.shard, cursor, now);
  }

  lemma {:induction false} RunForgets<S(!new)>(c: Config<S>, keys: set<nat>, events: seq<ShardRuns.Event>,
                                               states: seq<ShardRuns.Sim<S>>, i: nat)
    requires Sound(c.g) && c.forget && ShardRuns.Run(c, keys, events, states) && i < |states|
    ensures Inv(c, states[i].shard)
    decreases i
  {
    hide Sound, ShardRuns.Step;
    if i > 0 {
      RunForgets(c, keys, events, states, i - 1);
      StepForgets(c, states[i - 1], events[i - 1]);
      assert states[i] == ShardRuns.Step(c, states[i - 1], events[i - 1]);
    }
  }

  /** In every run under Forget, for any algorithm at all: the sketch is blank,
      no slot is seeded, the next check is not refused, and a key of an identity
      no debt was ever recorded for is charged nothing: it starts whole. */
  lemma ForgetNeverPunishes<S(!new)>(c: Config<S>, keys: set<nat>, events: seq<ShardRuns.Event>,
                                     states: seq<ShardRuns.Sim<S>>, i: nat,
                                     key: nat, n: nat, now: nat)
    requires Sound(c.g) && c.forget && ShardRuns.Run(c, keys, events, states) && i < |states|
    ensures var sh := states[i].shard;
            && WF(c.g, sh.table) && Blank(sh.table.cells) && Unseeded(sh.slots)
            && !Check(c, sh, key, n, now).refused
            && var roomy := MakeRoom(c, sh, now).0;
               IdOf(c.g, c.hash(key)) !in Debtors(roomy.marks) ==>
                 Take(c.g, roomy.table, c.hash(key), Millis(now)).0.None?
  {
    RunForgets(c, keys, events, states, i);
    hide Sound, Check, MakeRoom, PeekCharge, RecordsOf, ShardRuns.Run;
    var sh := states[i].shard;
    CheckForgets(c, sh, key, n, now);
    MakeRoomForgets(c, sh, now);
    var roomy := MakeRoom(c, sh, now).0;
    ChargeForgets(c.g, roomy.table, c.hash(key), Millis(now), Debtors(roomy.marks));
  }
}
