/** A shard with room for one key, whose keys may spend ten units a second and are
    logged (src/store.rs:1013-1135, 1310-1407): each check of another key for ten
    units evicts the one that is there, and `Next` says what that comes to. */
module LoneShard {
  import opened Units
  import opened Probe
  import opened RecoveryTable
  import opened RecoveryRecord
  import opened RecoveryCover
  import SlidingLog
  import KeyLog
  import opened Shard

  const LIMIT: nat := 10

  /** The period, in milliseconds. */
  const PERIOD: nat := 1000

  const HORIZON: nat := 10_000 * NANOS_PER_MILLI

  const QUOTA := SlidingLog.Quota(LIMIT, PERIOD * NANOS_PER_MILLI)

  const FRESH := KeyLog.Cell(QUOTA, SlidingLog.Empty)

  function Everyone(k: nat): SlidingLog.Quota { QUOTA }

  /** One slot, no idle limit, FailClosed. */
  ghost function SmallConfig(g: Geometry): Config<KeyLog.Cell> {
    Config(KeyLog.Ops(Everyone, HORIZON), g, 1, None, false, h => h)
  }

  /** The one key, whether it is seeded, and when it was checked, in milliseconds. */
  datatype Lone = Lone(table: Table, marks: Marks, key: nat, seeded: bool, at: nat)

  /** The log of a key that spent everything, or was charged everything, at `at`. */
  function Drained(at: nat): KeyLog.Cell {
    KeyLog.Cell(QUOTA, SlidingLog.Log([SlidingLog.Run(at * NANOS_PER_MILLI, LIMIT)], 0))
  }

  function SlotOf(l: Lone): Slot<KeyLog.Cell> {
    Slot(Drained(l.at), false, l.seeded, l.at, l.at + PERIOD, l.key, l.key)
  }

  ghost predicate Is(sh: Shard<KeyLog.Cell>, l: Lone) {
    sh.slots == [SlotOf(l)] && sh.index == {(l.key, 0)} && sh.table == l.table && sh.marks == l.marks
  }

  /** The key's debt is recorded. */
  function Left(g: Geometry, l: Lone, now: nat): Outcome
    requires Sound(g) && WF(g, l.table)
  {
    RecordDebt(g, l.table, l.key, LIMIT, l.at + PERIOD, now, false, l.seeded)
  }

  function MarksLeft(g: Geometry, l: Lone, now: nat): Marks
    requires Sound(g) && WF(g, l.table)
  {
    var due := Due(IdOf(g, l.key), LIMIT, l.at + PERIOD, l.key in l.marks.keys);
    MarksRecorded(g, l.marks, l.table, l.key, l.key, due, Left(g, l, now), now, false)
  }

  function SharedWith(charge: Option<Charge>): bool { charge.Some? && charge.value.shared }

  /** A check of `key` for ten units at `now` evicts the one key and stores `key`. */
  function Next(g: Geometry, l: Lone, key: nat, now: nat): Lone
    requires Sound(g) && WF(g, l.table)
  {
    var t := Left(g, l, now).table;
    var (charge, table) := Take(g, t, key, now);
    Lone(table, MarksTaken(g, MarksLeft(g, l, now), t, key, key, SharedWith(charge), now), key, SharedWith(charge), now)
  }

  /** The decision on a newcomer, its hint and its state. */
  function Started<S>(c: Config<S>, f: S, charge: Option<Charge>, n: nat, ns: nat): (Decision, nat, S) {
    var s := if charge.Some? then c.ops.restore(f, FromMillis(charge.value), ns) else f;
    var (d, s1) := c.ops.acquire(s, n, ns);
    var (hint, s2) := FirstHint(c.ops, s1, charge.Some?, n, d, ns);
    (d, hint, s2)
  }

  // -------------------------------------------------------------- the one log

  lemma DrainedOwes(at: nat, t: nat)
    requires at * NANOS_PER_MILLI <= t < (at + PERIOD) * NANOS_PER_MILLI <= U64_MAX
    ensures KeyLog.DebtOf(Drained(at), t) == Some(Debt(LIMIT, (at + PERIOD) * NANOS_PER_MILLI))
    ensures KeyLog.Look(Drained(at), t) == Drained(at)
  {
    hide SlidingLog.Cut, SlidingLog.Expire;
    KeyLog.ExpireOne(Drained(at).log, t, QUOTA.period);
  }

  lemma DrainedRefuses(at: nat)
    requires (at + PERIOD) * NANOS_PER_MILLI <= U64_MAX
    ensures var (d, s) := KeyLog.Acquire(Drained(at), LIMIT, at * NANOS_PER_MILLI); d != Allow && s == Drained(at)
  {
    hide SlidingLog.Cut, SlidingLog.Expire, SlidingLog.ExpireAt;
    KeyLog.ExpireOne(Drained(at).log, at * NANOS_PER_MILLI, QUOTA.period);
  }

  lemma FirstDrains(at: nat)
    requires at * NANOS_PER_MILLI <= U64_MAX
    ensures KeyLog.Acquire(FRESH, LIMIT, at * NANOS_PER_MILLI) == (Allow, Drained(at))
  {
    var s := FRESH;
    hide KeyLog.Acquire;
    KeyLog.FirstRun(s, LIMIT, at * NANOS_PER_MILLI);
    var s' := KeyLog.Acquire(s, LIMIT, at * NANOS_PER_MILLI).1;
    assert s'.log.runs == [s'.log.runs[0]];
  }

  lemma WholeMillis(at: nat)
    requires (at + PERIOD) * NANOS_PER_MILLI <= U64_MAX
    ensures Millis(at * NANOS_PER_MILLI) == at && CeilMillis(at * NANOS_PER_MILLI) == at
  {
  }

  lemma UnchargedIsDrained(c: Config<KeyLog.Cell>, now: nat)
    requires c == SmallConfig(c.g) && now + PERIOD < 10_000
    ensures Started(c, FRESH, None, LIMIT, now * NANOS_PER_MILLI) == (Allow, now + PERIOD, Drained(now))
  {
    var ns, b := now * NANOS_PER_MILLI, (now + 1) * NANOS_PER_MILLI;
    WholeMillis(now);
    WholeMillis(now + PERIOD);
    hide KeyLog.Acquire, KeyLog.DebtOf, KeyLog.Look, Drained, CeilMillis, Millis;
    FirstDrains(now);
    DrainedOwes(now, ns);
    DrainedOwes(now, b);
    assert c.ops.acquire(FRESH, LIMIT, ns) == (Allow, Drained(now));
  }

  lemma ChargedIsDrained(c: Config<KeyLog.Cell>, charge: Charge, now: nat)
    requires c == SmallConfig(c.g) && now + PERIOD < 10_000 && charge.spent == LIMIT && charge.until > now
    ensures var (d, hint, s) := Started(c, FRESH, Some(charge), LIMIT, now * NANOS_PER_MILLI);
            d != Allow && hint == now + PERIOD && s == Drained(now)
  {
    var ns := now * NANOS_PER_MILLI;
    WholeMillis(now + PERIOD);
    hide KeyLog.Acquire, KeyLog.DebtOf, KeyLog.Look, Drained, CeilMillis, Millis;
    FirstDrains(now);
    DrainedRefuses(now);
    DrainedOwes(now, ns);
    assert c.ops.restore(FRESH, FromMillis(charge), ns) == Drained(now);
  }

  /** Charged ten units or asking for ten, a newcomer is drained; it is granted
      them exactly if it was not charged. */
  lemma NewcomerIsDrained(c: Config<KeyLog.Cell>, charge: Option<Charge>, now: nat)
    requires c == SmallConfig(c.g) && now + PERIOD < 10_000
    requires charge.Some? ==> charge.value.spent == LIMIT && charge.value.until > now
    ensures var (d, hint, s) := Started(c, FRESH, charge, LIMIT, now * NANOS_PER_MILLI);
            (d == Allow <==> charge.None?) && hint == now + PERIOD && s == Drained(now)
  {
    hide Started, SmallConfig, Drained;
    match charge
    case None => UnchargedIsDrained(c, now);
    case Some(owed) => ChargedIsDrained(c, owed, now);
  }

  // ------------------------------------------------------------- the one slot

  lemma OneSlotPositions(sh: Shard<KeyLog.Cell>, l: Lone, key: nat)
    requires Is(sh, l) && key != l.key
    ensures Position(sh, key, key).None?
  {
  }

  lemma OneIsEvictable(c: Config<KeyLog.Cell>, sh: Shard<KeyLog.Cell>, l: Lone, now: nat)
    requires c == SmallConfig(c.g) && Sound(c.g) && WF(c.g, l.table) && Is(sh, l)
    requires l.at <= now && now + 1 < l.at + PERIOD < 10_000
    requires l.seeded ==> HasExactRoom(c.g, l.table, l.key, now)
    ensures Evictable(c, sh, 0, now * NANOS_PER_MILLI) == (sh, Owing)
  {
    hide HasExactRoom, ExactHint, Drained, Sound;
    WholeMillis(now);
    var slot := Refreshed(c.ops, sh.slots[0], now * NANOS_PER_MILLI);
    assert slot == sh.slots[0];
    assert sh.slots[0 := slot] == sh.slots;
  }

  /** The shard once its one key is gone. */
  ghost predicate Empty(sh: Shard<KeyLog.Cell>, table: Table, marks: Marks) {
    sh.slots == [] && sh.index == {} && sh.table == table && sh.marks == marks
  }

  lemma LeftIsRecorded(g: Geometry, l: Lone, now: nat)
    requires Sound(g) && WF(g, l.table) && (l.seeded ==> HasExactRoom(g, l.table, l.key, now))
    ensures Left(g, l, now).result.Some?
  {
    hide Sound, HasExactRoom, RecordDebt;
    RoomIff(g, l.table, l.key, LIMIT, l.at + PERIOD, now, false);
    PlainAlwaysRecorded(g, l.table, l.key, LIMIT, l.at + PERIOD, now, false);
  }

  lemma DebtLeft(c: Config<KeyLog.Cell>, l: Lone, now: nat)
    requires c == SmallConfig(c.g) && l.at <= now < l.at + PERIOD < 10_000
    ensures !c.forget
    ensures var debt := c.ops.debt(Drained(l.at), now * NANOS_PER_MILLI);
            debt.Some? && debt.value.spent == LIMIT && CeilMillis(debt.value.until) == l.at + PERIOD
  {
    WholeMillis(l.at + PERIOD);
    DrainedOwes(l.at, now * NANOS_PER_MILLI);
    hide Drained, KeyLog.DebtOf;
  }

  lemma OneLeaves(c: Config<KeyLog.Cell>, sh: Shard<KeyLog.Cell>, l: Lone, now: nat)
    requires c == SmallConfig(c.g) && Sound(c.g) && WF(c.g, l.table) && Is(sh, l)
    requires l.at <= now && now + 1 < l.at + PERIOD < 10_000
    requires l.seeded ==> HasExactRoom(c.g, l.table, l.key, now)
    ensures Empty(EvictAt(c, sh, 0, false, now * NANOS_PER_MILLI), Left(c.g, l, now).table, MarksLeft(c.g, l, now))
  {
    LeftIsRecorded(c.g, l, now);
    DebtLeft(c, l, now);
    WholeMillis(now);
    hide HasExactRoom, RecordDebt, MarksRecorded, Drained, Millis, CeilMillis, Sound, SmallConfig;
    assert sh.slots[0] == SlotOf(l) && c.forget == false;
  }

  lemma OneMakesRoom(c: Config<KeyLog.Cell>, sh: Shard<KeyLog.Cell>, l: Lone, now: nat)
    requires c == SmallConfig(c.g) && Sound(c.g) && WF(c.g, l.table) && Is(sh, l)
    requires l.at <= now && now + 1 < l.at + PERIOD < 10_000
    requires l.seeded ==> HasExactRoom(c.g, l.table, l.key, now)
    ensures var (r, err) := MakeRoom(c, sh, now * NANOS_PER_MILLI);
            err.None? && Empty(r, Left(c.g, l, now).table, MarksLeft(c.g, l, now))
  {
    OneIsEvictable(c, sh, l, now);
    OneLeaves(c, sh, l, now);
    hide HasExactRoom, Evictable, EvictAt, Left, MarksLeft, Sound;
    var ns := now * NANOS_PER_MILLI;
    var s0 := Scan(sh, false, None, UNKNOWN);
    assert !SecondChance(sh.slots[0], Millis(ns), c.ttl);
    assert At(Start(sh), 0, 1) == 0;
    var first := FirstPass(c, s0, Start(sh), 0, 1, ns);
    assert first == FirstPass(c, s0.(owing := Some(0)), Start(sh), 1, 1, ns);
    assert first == s0.(owing := Some(0));
  }

  lemma AdmitIs<S(!new)>(c: Config<S>, sh: Shard<S>, key: nat, f: S, n: nat, ns: nat)
    requires Sound(c.g) && WF(c.g, sh.table) && sh.slots == [] && sh.index == {} && c.hash(key) == key
    ensures var (r, d) := Admit(c, sh, key, f, n, ns);
            var (charge, table) := Take(c.g, sh.table, key, Millis(ns));
            var shared := SharedWith(charge);
            var (d', hint, s) := Started(c, f, charge, n, ns);
            && d == d' && r.index == {(key, 0)} && r.table == table
            && r.slots == [Slot(s, false, shared, Millis(ns), hint, key, key)]
            && r.marks == MarksTaken(c.g, sh.marks, sh.table, key, key, shared, Millis(ns))
  {
    hide FirstHint, PeekCharge, Forget, Millis, Sound, MarksTaken;
  }

  lemma TakeIsPeek(g: Geometry, t: Table, h: nat, now: nat)
    requires Sound(g) && WF(g, t)
    ensures Take(g, t, h, now).0 == PeekCharge(g, t, h, now)
  {
  }

  lemma DrainedSlot(sh: Shard<KeyLog.Cell>, table: Table, marks: Marks, key: nat, seeded: bool, now: nat)
    requires sh.slots == [Slot(Drained(now), false, seeded, now, now + PERIOD, key, key)] && sh.index == {(key, 0)}
    requires sh.table == table && sh.marks == marks
    ensures Is(sh, Lone(table, marks, key, seeded, now))
  {
  }

  /** What a newcomer finds in an empty shard. */
  lemma Arrives(c: Config<KeyLog.Cell>, sh: Shard<KeyLog.Cell>, key: nat, now: nat)
    requires c == SmallConfig(c.g) && Sound(c.g) && WF(c.g, sh.table) && sh.slots == [] && sh.index == {}
    requires now + PERIOD < 10_000
    requires var charge := PeekCharge(c.g, sh.table, key, now);
             charge.Some? ==> charge.value.spent == LIMIT && charge.value.until > now
    ensures var (r, d) := Admit(c, sh, key, FRESH, LIMIT, now * NANOS_PER_MILLI);
            var (charge, table) := Take(c.g, sh.table, key, now);
            && (d == Allow <==> charge.None?)
            && Is(r, Lone(table, MarksTaken(c.g, sh.marks, sh.table, key, key, SharedWith(charge), now), key,
                     SharedWith(charge), now))
  {
    assert c.hash(key) == key;
    hide *;
    WholeMillis(now);
    var ns, charge := now * NANOS_PER_MILLI, PeekCharge(c.g, sh.table, key, now);
    NewcomerIsDrained(c, charge, now);
    AdmitIs(c, sh, key, FRESH, LIMIT, ns);
    var (r, d) := Admit(c, sh, key, FRESH, LIMIT, ns);
    TakeIsPeek(c.g, sh.table, key, now);
    var table, shared := Take(c.g, sh.table, key, now).1, SharedWith(charge);
    DrainedSlot(r, table, MarksTaken(c.g, sh.marks, sh.table, key, key, shared, now), key, shared, now);
  }

  /** One check of another key. */
  lemma CheckIsNext(c: Config<KeyLog.Cell>, sh: Shard<KeyLog.Cell>, l: Lone, key: nat, now: nat)
    requires c == SmallConfig(c.g) && Sound(c.g) && WF(c.g, l.table) && Is(sh, l) && key != l.key
    requires l.at <= now && now + 1 < l.at + PERIOD && now + PERIOD < 10_000
    requires l.seeded ==> HasExactRoom(c.g, l.table, l.key, now)
    requires var charge := PeekCharge(c.g, Left(c.g, l, now).table, key, now);
             charge.Some? ==> charge.value.spent == LIMIT && charge.value.until > now
    ensures var r := Check(c, sh, key, LIMIT, now * NANOS_PER_MILLI);
            && Is(r.shard, Next(c.g, l, key, now))
            && (r.decision == Allow <==> PeekCharge(c.g, Left(c.g, l, now).table, key, now).None?)
  {
    OneSlotPositions(sh, l, key);
    OneMakesRoom(c, sh, l, now);
    hide MakeRoom, HasExactRoom, Left, MarksLeft, Sound, PeekCharge, Forget, Admit, Position, MarksTaken, Is;
    var roomy := MakeRoom(c, sh, now * NANOS_PER_MILLI).0;
    Arrives(c, roomy, key, now);
    assert c.ops.create(key, now * NANOS_PER_MILLI) == Some(FRESH);
  }
}
