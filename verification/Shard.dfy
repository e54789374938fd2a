/** One shard of the store (src/store.rs:868-1135, 1310-1504) as a value: dense
    slots, an index from hashes to positions, two eviction cursors and the
    recovery table. Each locked section of the code is one function. */
module Shard {
  import opened Units
  import opened Probe
  import opened RecoveryTable
  import opened RecoveryCover
  import opened KeyLaws

  const TTL_SWEEP: nat := 8
  const CLOCK_SCAN: nat := 32
  const RETAIN_CHUNK: nat := 1024

  /** A hint that must be recomputed from the state. */
  const UNKNOWN: nat := U64_MAX

  /** One stored key. `hint` is when its allowance is whole again, in
      milliseconds rounded up. */
  datatype Slot<S> = Slot(state: S, referenced: bool, seeded: bool, lastSeen: nat, hint: nat, hash: nat, key: nat)

  /** History variables, which nothing the shard does depends on. A key is charged
      from the sketch directly, or through its record if it was recorded while so
      charged.

      - `keys`: the keys whose latest admission was so charged;
      - `records`: the identities whose record was written while so charged;
      - `debts`: every debt recorded, inherited if its key was so charged;
      - `last`: of each identity, the one recorded last, until it is taken back;
      - `lost`: some key was stored as not seeded though its record was inherited;
      - `leaked`: some debt so charged was written to the sketch. */
  datatype Marks = Marks(keys: set<nat>, records: set<Id>, debts: set<Due>, last: map<Id, Due>, lost: bool,
    leaked: bool)

  const UNMARKED := Marks({}, {}, {}, map[], false, false)

  datatype Shard<S> = Shard(slots: seq<Slot<S>>, index: set<(nat, nat)>, hand: nat, sweep: nat, table: Table,
    marks: Marks)

  /** What is fixed for a shard: the algorithm, the table's geometry, the cap and
      idle limit, the overflow policy and the hasher. */
  datatype Config<!S> = Config(ops: KeyOps<S>, g: Geometry, cap: nat, ttl: Option<nat>, forget: bool, hash: nat -> nat)

  datatype Verdict = Recovered | Owing | No(at: nat)

  function NewShard<S>(): Shard<S> { Shard([], {}, 0, 0, NEW, UNMARKED) }

  // --------------------------------------------------------------- history

  /** The identities a debt was recorded for. */
  function Debtors(marks: Marks): set<Id> { set d | d in marks.debts :: d.id }

  /** The key's own record is live and was written while charged from the sketch. */
  predicate OwnMarked(g: Geometry, marks: Marks, t: Table, h: nat, nowMs: nat)
    requires Sound(g) && WF(g, t)
  {
    Own(g, t, h, nowMs).Some? && IdOf(g, h) in marks.records
  }

  /** The key's own record is live and inherited, but no longer both of its cells:
      `peek` answers with the record and does not say that it was inherited. */
  predicate Unsaid(g: Geometry, t: Table, h: nat, nowMs: nat)
    requires Sound(g) && WF(g, t)
  {
    var own := Own(g, t, h, nowMs);
    own.Some? && t.records[own.value].inherited && Shared(g, t, IdOf(g, h), nowMs).None?
  }

  /** What recording the debt `due` of `key` does to the marks: the record is
      marked if the key or the record it joins is, and a record pushed out to the
      sketch takes its mark along. */
  function MarksRecorded(g: Geometry, marks: Marks, t: Table, h: nat, key: nat, due: Due, o: Outcome, nowMs: nat,
                         forget: bool): Marks
    requires Sound(g) && WF(g, t)
  {
    var charged := key in marks.keys || OwnMarked(g, marks, t, h, nowMs);
    var records := if charged then marks.records + {IdOf(g, h)} else marks.records - {IdOf(g, h)};
    var recorded := marks.(debts := marks.debts + {due}, last := marks.last[due.id := due]);
    match o.spilled
    case None => recorded.(records := records)
    case Some(left) =>
      var out := IdAt(g, left.bucket, left.record.tag);
      recorded.(records := records - {out}, leaked := marks.leaked || (!forget && out in records))
  }

  /** What taking back the debt of `key` does to the marks. */
  function MarksTaken(g: Geometry, marks: Marks, t: Table, h: nat, key: nat, shared: bool, nowMs: nat): Marks
    requires Sound(g) && WF(g, t)
  {
    var charged := shared || OwnMarked(g, marks, t, h, nowMs);
    marks.(keys := if charged then marks.keys + {key} else marks.keys - {key}, records := marks.records - {IdOf(g, h)},
           last := marks.last - {IdOf(g, h)}, lost := marks.lost || Unsaid(g, t, h, nowMs))
  }

  // ----------------------------------------------------------------- index

  predicate Matches<S>(sh: Shard<S>, hash: nat, key: nat, p: nat)
    requires p < |sh.slots|
  {
    (hash, p) in sh.index && sh.slots[p].hash == hash && sh.slots[p].key == key
  }

  /** The indexed position among the first `n` that holds `key`. */
  function PositionIn<S>(sh: Shard<S>, hash: nat, key: nat, n: nat): (r: Option<nat>)
    requires n <= |sh.slots|
    ensures r.Some? ==> r.value < n && Matches(sh, hash, key, r.value)
    decreases n
  {
    if n == 0 then None
    else if Matches(sh, hash, key, n - 1) then Some(n - 1)
    else PositionIn(sh, hash, key, n - 1)
  }

  /** `position`. */
  function Position<S>(sh: Shard<S>, hash: nat, key: nat): (r: Option<nat>)
    ensures r.Some? ==> r.value < |sh.slots| && sh.slots[r.value].key == key
  {
    PositionIn(sh, hash, key, |sh.slots|)
  }

  function Insert<S>(sh: Shard<S>, slot: Slot<S>): Shard<S> {
    sh.(slots := sh.slots + [slot], index := sh.index + {(slot.hash, |sh.slots|)})
  }

  /** `remove_at`: the last slot moves into the gap and is re-indexed. */
  function RemoveAt<S>(sh: Shard<S>, pos: nat): (r: Shard<S>)
    requires pos < |sh.slots|
    ensures |r.slots| == |sh.slots| - 1
  {
    var last := |sh.slots| - 1;
    var freed := sh.index - {(sh.slots[pos].hash, pos)};
    var moved := sh.slots[last].hash;
    sh.(index := if pos == last then freed else freed - {(moved, last)} + {(moved, pos)},
        slots := sh.slots[pos := sh.slots[last]][..last])
  }

  // ----------------------------------------------------------------- hints

  /** `recovers_at`: the exact hint of a state. */
  function ExactHint<S>(o: KeyOps<S>, s: S, now: nat): nat {
    match o.debt(s, now)
    case None => 0
    case Some(d) => CeilMillis(d.until)
  }

  /** `first_hint`, and the state that computing it leaves. */
  function FirstHint<S>(o: KeyOps<S>, s: S, charged: bool, n: nat, d: Decision, now: nat): (nat, S) {
    if !charged && (n == 0 || d.Deny?) then (0, s)
    else if charged then (ExactHint(o, s, now), o.look(s, now))
    else
      var boundary := (Millis(now) + 1) * NANOS_PER_MILLI;
      var s1 := o.look(s, boundary);
      if o.isFull(s, boundary) then (Millis(now) + 1, s1)
      else (ExactHint(o, s1, now), o.look(s1, now))
  }

  /** `Slot::recovers_at`: refreshes the hint if it cannot be trusted. */
  function Refreshed<S>(o: KeyOps<S>, s: Slot<S>, now: nat): Slot<S> {
    if s.hint == UNKNOWN || s.referenced then
      s.(hint := ExactHint(o, s.state, now), state := o.look(s.state, now))
    else if s.hint == Millis(now) + 1 then
      s.(hint := if o.isFull(s.state, now) then 0 else s.hint, state := o.look(s.state, now))
    else s
  }

  predicate Expired<S>(s: Slot<S>, nowMs: nat, ttl: Option<nat>) {
    ttl.Some? && SatSub(nowMs, s.lastSeen) >= ttl.value
  }

  // -------------------------------------------------------------- eviction

  /** `evictable`: the slot with its hint refreshed, and the verdict on it. */
  function Evictable<S>(c: Config<S>, sh: Shard<S>, pos: nat, now: nat): (r: (Shard<S>, Verdict))
    requires Sound(c.g) && WF(c.g, sh.table) && pos < |sh.slots|
    ensures |r.0.slots| == |sh.slots| && r.0.table == sh.table
  {
    var slot := Refreshed(c.ops, sh.slots[pos], now);
    (sh.(slots := sh.slots[pos := slot]),
     if slot.hint <= Millis(now) then Recovered
     else if !slot.seeded || HasExactRoom(c.g, sh.table, slot.hash, Millis(now)) then Owing
     else No(slot.hint))
  }

  /** `evict_at`: the debt is recorded first, if there is one; a debt that cannot
      be recorded keeps its slot. */
  function EvictAt<S>(c: Config<S>, sh: Shard<S>, pos: nat, recovered: bool, now: nat): (r: Shard<S>)
    requires Sound(c.g) && WF(c.g, sh.table) && pos < |sh.slots|
    ensures WF(c.g, r.table) && r.marks.lost == sh.marks.lost
  {
    var slot := sh.slots[pos];
    var debt := c.ops.debt(slot.state, now);
    if recovered || debt.None? then RemoveAt(sh, pos)
    else
      var until := CeilMillis(debt.value.until);
      var o := RecordDebt(c.g, sh.table, slot.hash, debt.value.spent, until, Millis(now), c.forget, slot.seeded);
      if o.result.None? then
        sh.(table := o.table, slots := sh.slots[pos := slot.(state := c.ops.look(slot.state, now))])
      else
        var due := Due(IdOf(c.g, slot.hash), debt.value.spent, until, slot.key in sh.marks.keys);
        var marks := MarksRecorded(c.g, sh.marks, sh.table, slot.hash, slot.key, due, o, Millis(now), c.forget);
        RemoveAt(sh.(table := o.table, marks := marks), pos)
  }

  /** One examination of `sweep_idle`. */
  function SweepOne<S>(c: Config<S>, sh: Shard<S>, now: nat, ttl: nat): (r: Shard<S>)
    requires Sound(c.g) && WF(c.g, sh.table) && |sh.slots| > 0
    ensures WF(c.g, r.table) && r.marks.lost == sh.marks.lost
  {
    var at := if sh.sweep >= |sh.slots| then 0 else sh.sweep;
    if Expired(sh.slots[at], Millis(now), Some(ttl)) then
      var (sh1, verdict) := Evictable(c, sh.(sweep := at), at, now);
      match verdict
      case Recovered => EvictAt(c, sh1, at, true, now)
      case Owing => EvictAt(c, sh1, at, false, now)
      case No(_) => sh1.(sweep := at + 1)
    else sh.(sweep := at + 1)
  }

  /** `sweep_idle`. */
  function SweepIdle<S>(c: Config<S>, sh: Shard<S>, now: nat, ttl: nat, steps: nat): (r: Shard<S>)
    requires Sound(c.g) && WF(c.g, sh.table)
    ensures WF(c.g, r.table) && r.marks.lost == sh.marks.lost
    decreases steps
  {
    if steps == 0 || |sh.slots| == 0 then sh else SweepIdle(c, SweepOne(c, sh, now, ttl), now, ttl, steps - 1)
  }

  /** `finish_eviction`: the hand steps past the gap. */
  function FinishEviction<S>(c: Config<S>, sh: Shard<S>, pos: nat, recovered: bool, now: nat): (r: Shard<S>)
    requires Sound(c.g) && WF(c.g, sh.table) && pos < |sh.slots|
    ensures WF(c.g, r.table) && r.marks.lost == sh.marks.lost
  {
    EvictAt(c, sh, pos, recovered, now).(hand := pos + 1)
  }

  /** How far a scan got: it evicted, or found the first slot that still owes but
      could go, and the earliest time one that cannot go recovers. */
  datatype Scan<S> = Scan(shard: Shard<S>, done: bool, owing: Option<nat>, earliest: nat)

  function Start<S>(sh: Shard<S>): (start: nat)
    requires |sh.slots| > 0
    ensures start < |sh.slots|
  {
    if sh.hand >= |sh.slots| then 0 else sh.hand
  }

  /** The position `step` of a scan looks at. */
  function At(start: nat, step: nat, len: nat): (p: nat)
    requires len > 0
    ensures p < len
  {
    (start + step) % len
  }

  predicate SecondChance<S>(s: Slot<S>, nowMs: nat, ttl: Option<nat>) {
    !Expired(s, nowMs, ttl) && s.referenced
  }

  /** The first pass: a recently used slot gets a second chance, a recovered one
      goes, and the first owing one is noted. */
  function FirstPass<S>(c: Config<S>, s: Scan<S>, start: nat, step: nat, scan: nat, now: nat): (r: Scan<S>)
    requires Sound(c.g) && WF(c.g, s.shard.table) && |s.shard.slots| > 0 && step <= scan
    requires s.owing.Some? ==> s.owing.value < |s.shard.slots|
    ensures r.shard.marks.lost == s.shard.marks.lost
    ensures WF(c.g, r.shard.table) && (!r.done ==> |r.shard.slots| == |s.shard.slots|)
    ensures r.owing.Some? ==> r.owing.value < |s.shard.slots|
    decreases scan - step
  {
    if step == scan || s.done then s
    else
      var sh := s.shard;
      var pos := At(start, step, |sh.slots|);
      if SecondChance(sh.slots[pos], Millis(now), c.ttl) then
        var slots := sh.slots[pos := sh.slots[pos].(referenced := false, hint := UNKNOWN)];
        FirstPass(c, s.(shard := sh.(slots := slots)), start, step + 1, scan, now)
      else
        var (sh1, verdict) := Evictable(c, sh, pos, now);
        match verdict
        case Recovered => s.(shard := FinishEviction(c, sh1, pos, true, now), done := true)
        case Owing =>
          FirstPass(c, s.(shard := sh1, owing := if s.owing.None? then Some(pos) else s.owing), start, step + 1,
            scan, now)
        case No(at) =>
          FirstPass(c, s.(shard := sh1, earliest := Min(s.earliest, at)), start, step + 1, scan, now)
  }

  /** The second pass over the same slots: the first that can go, goes. */
  function SecondPass<S>(c: Config<S>, s: Scan<S>, start: nat, step: nat, scan: nat, now: nat): (r: Scan<S>)
    requires Sound(c.g) && WF(c.g, s.shard.table) && |s.shard.slots| > 0 && step <= scan
    ensures WF(c.g, r.shard.table) && r.shard.marks.lost == s.shard.marks.lost
    decreases scan - step
  {
    if step == scan || s.done then s
    else
      var pos := At(start, step, |s.shard.slots|);
      var (sh1, verdict) := Evictable(c, s.shard, pos, now);
      match verdict
      case Recovered => s.(shard := FinishEviction(c, sh1, pos, true, now), done := true)
      case Owing => s.(shard := FinishEviction(c, sh1, pos, false, now), done := true)
      case No(at) =>
        SecondPass(c, s.(shard := sh1, earliest := Min(s.earliest, at)), start, step + 1, scan, now)
  }

  /** `evict_one`: the shard, and the earliest recovery if nothing could go. */
  function EvictOne<S>(c: Config<S>, sh: Shard<S>, now: nat): (r: (Shard<S>, Option<nat>))
    requires Sound(c.g) && WF(c.g, sh.table)
    ensures WF(c.g, r.0.table) && r.0.marks.lost == sh.marks.lost
  {
    if |sh.slots| == 0 then (sh, None)
    else
      var start, scan := Start(sh), Min(CLOCK_SCAN, |sh.slots|);
      var first := FirstPass(c, Scan(sh, false, None, UNKNOWN), start, 0, scan, now);
      if first.done then (first.shard, None)
      else if first.owing.Some? then (FinishEviction(c, first.shard, first.owing.value, false, now), None)
      else
        var second := SecondPass(c, first, start, 0, scan, now);
        (second.shard, if second.done then None else Some(second.earliest))
  }

  function MakeRoom<S>(c: Config<S>, sh: Shard<S>, now: nat): (r: (Shard<S>, Option<nat>))
    requires Sound(c.g) && WF(c.g, sh.table)
    ensures WF(c.g, r.0.table) && r.0.marks.lost == sh.marks.lost
  {
    var swept := if c.ttl.Some? then SweepIdle(c, sh, now, c.ttl.value, TTL_SWEEP) else sh;
    if |swept.slots| >= c.cap then EvictOne(c, swept, now) else (swept, None)
  }

  // ----------------------------------------------------------------- checks

  /** A check of a stored key. */
  function CheckStored<S>(c: Config<S>, sh: Shard<S>, pos: nat, n: nat, now: nat): (Shard<S>, Decision)
    requires pos < |sh.slots|
  {
    var slot := sh.slots[pos];
    var (d, s) := c.ops.acquire(slot.state, n, now);
    var seen := if c.ttl.Some? then Max(slot.lastSeen, Millis(now)) else slot.lastSeen;
    (sh.(slots := sh.slots[pos := slot.(state := s, referenced := true, lastSeen := seen)]), d)
  }

  /** A debt of the table as a debt of a state. */
  function FromMillis(charge: Charge): Debt { Debt(charge.spent, charge.until * NANOS_PER_MILLI) }

  /** A newcomer stored in a shard with room, charged what it left owing. */
  function Admit<S>(c: Config<S>, sh: Shard<S>, key: nat, fresh0: S, n: nat, now: nat): (Shard<S>, Decision)
    requires Sound(c.g) && WF(c.g, sh.table)
  {
    var h := c.hash(key);
    var (charge, table) := Take(c.g, sh.table, h, Millis(now));
    var s := if charge.Some? then c.ops.restore(fresh0, FromMillis(charge.value), now) else fresh0;
    var (d, s1) := c.ops.acquire(s, n, now);
    var (hint, s2) := FirstHint(c.ops, s1, charge.Some?, n, d, now);
    var shared := charge.Some? && charge.value.shared;
    var marks := MarksTaken(c.g, sh.marks, sh.table, h, key, shared, Millis(now));
    (Insert(sh.(table := table, marks := marks), Slot(s2, false, shared, Millis(now), hint, h, key)), d)
  }

  /** `closed`: zero units always fit, any more never will. */
  function ClosedDecision(n: nat): Decision { if n == 0 then Allow else Deny(DURATION_MAX) }

  /** A decision, and whether it is a refusal to store the key at all. */
  datatype Checked<S> = Checked(shard: Shard<S>, decision: Decision, refused: bool)

  /** `check`. */
  function Check<S>(c: Config<S>, sh: Shard<S>, key: nat, n: nat, now: nat): Checked<S>
    requires Sound(c.g) && WF(c.g, sh.table)
  {
    var pos := Position(sh, c.hash(key), key);
    if pos.Some? then
      var (sh1, d) := CheckStored(c, sh, pos.value, n, now);
      Checked(sh1, d, false)
    else
      var created := c.ops.create(key, now);
      if created.None? then Checked(sh, ClosedDecision(n), false)
      else
        var (roomy, err) := MakeRoom(c, sh, now);
        if err.Some? then
          Checked(roomy, Deny(Max(SatSub(err.value, Millis(now)), 1) * NANOS_PER_MILLI), true)
        else
          var (sh1, d) := Admit(c, roomy, key, created.value, n, now);
          Checked(sh1, d, false)
  }

  /** `peek` of the store: reading a tracked key may tidy its state. */
  function PeekKey<S>(c: Config<S>, sh: Shard<S>, key: nat, now: nat): Shard<S> {
    var pos := Position(sh, c.hash(key), key);
    if pos.None? then sh
    else sh.(slots := sh.slots[pos.value := sh.slots[pos.value].(state := c.ops.look(sh.slots[pos.value].state, now))])
  }

  // ----------------------------------------------------------------- retain

  /** One step of `retain_recent`: a whole key is forgotten. */
  function RetainOne<S>(c: Config<S>, sh: Shard<S>, pos: nat, now: nat): Shard<S>
    requires pos < |sh.slots|
  {
    var slot := sh.slots[pos];
    var read := sh.(slots := sh.slots[pos := slot.(state := c.ops.look(slot.state, now))]);
    if c.ops.isFull(slot.state, now) then RemoveAt(read, pos) else read
  }

  /** The walk of one chunk, downward from `cursor` to `stop`. */
  function RetainDown<S>(c: Config<S>, sh: Shard<S>, cursor: nat, stop: nat, now: nat): Shard<S>
    requires cursor <= |sh.slots|
    decreases cursor
  {
    if cursor <= stop then sh
    else RetainDown(c, RetainOne(c, sh, cursor - 1, now), cursor - 1, stop, now)
  }

  /** One locked chunk of `retain_recent`. */
  function RetainChunk<S>(c: Config<S>, sh: Shard<S>, cursor: nat, now: nat): (Shard<S>, nat) {
    var from := Min(cursor, |sh.slots|);
    var stop := SatSub(from, RETAIN_CHUNK);
    var sh1 := RetainDown(c, sh, from, stop, now);
    (if stop == 0 then sh1.(table := Release(sh1.table, Millis(now))) else sh1, stop)
  }
}
