/** The sliding window log as a key's state (src/algo/mod.rs:244-261): it obeys
    the laws of restoring for every period, and those of the store exactly for
    periods over a millisecond. */
module KeyLog {
  import opened Units
  import opened Division
  import opened SlidingLog
  import opened KeyLaws

  datatype Cell = Cell(q: Quota, log: Log)

  predicate Open(q: Quota) { q.limit > 0 && q.period > 0 }

  function Create(quota: nat -> Quota, k: nat): Option<Cell> {
    if Open(quota(k)) then Some(Cell(quota(k), Empty)) else None
  }

  function Acquire(s: Cell, n: nat, now: nat): (Decision, Cell) {
    var (d, log) := SlidingLog.Acquire(s.q, s.log, n, now);
    (d, Cell(s.q, log))
  }

  function DebtOf(s: Cell, now: nat): Option<Debt> {
    var (remaining, reset, _) := Peek(s.q, s.log, now);
    var spent := SatSub(s.q.limit, remaining);
    if spent > 0 then Some(Debt(spent, now + reset)) else None
  }

  function Look(s: Cell, now: nat): Cell { Cell(s.q, Peek(s.q, s.log, now).2) }

  function Restore(s: Cell, d: Debt, now: nat): Cell {
    if d.until <= now || d.spent == 0 then s else Acquire(s, Min(d.spent, s.q.limit), now).1
  }

  /** Units in the window at `t`. */
  function Load(s: Cell, t: nat): nat { InWindowAt(s.log, t, s.q.period) }

  /** When the window is empty. */
  function End(s: Cell): nat { if s.log.runs == [] then 0 else Back(s.log).at + s.q.period }

  /** The last instant of the aligned window `now` lies in. */
  function LastOf(q: Quota, now: nat): nat
    requires q.period > 0
  {
    now / q.period * q.period + q.period - 1
  }

  /** What the aligned windows before that of `now` may hold in all. */
  function Allotted(q: Quota, now: nat): nat
    requires q.period > 0
  {
    q.limit * (now / q.period)
  }

  lemma AllottedRises(q: Quota, now: nat, t: nat)
    requires q.period > 0 && now <= t
    ensures Allotted(q, now) <= Allotted(q, t)
    ensures now / q.period < t / q.period ==> Allotted(q, now) + q.limit <= Allotted(q, t)
  {
    var w, v := now / q.period, t / q.period;
    FloorMonotone(now, t, q.period);
    MulMonotone(w, v, q.limit);
    if w < v { MulMonotone(w + 1, v, q.limit); }
    assert (w + 1) * q.limit == w * q.limit + q.limit;
  }

  /** At most `limit` units were recorded in each aligned window before this one:
      what keeps the running total from saturating. */
  predicate Paced(s: Cell, now: nat) {
    s.q.period > 0 && SatSub(Total(s.log), Load(s, LastOf(s.q, now))) <= Allotted(s.q, now)
  }

  ghost predicate Valid(quota: nat -> Quota, k: nat, s: Cell, now: nat) {
    && s.q == quota(k) && Open(s.q) && WellFormed(s.log)
    && (s.log.runs != [] ==> Back(s.log).at <= now) && Load(s, now) <= s.q.limit && Paced(s, now)
  }

  ghost predicate Stricter(r: Cell, s: Cell, now: nat) {
    r.q == s.q && forall t: nat :: now <= t ==> Load(r, t) >= Load(s, t)
  }

  ghost function Ops(quota: nat -> Quota, horizon: nat): KeyOps<Cell> {
    KeyOps(horizon,
           (k, now) => Create(quota, k),
           (s, n, now) => Acquire(s, n, now),
           (s, now) => DebtOf(s, now),
           (s, now) => DebtOf(s, now).None?,
           (s, now) => Look(s, now),
           (s, d, now) => Restore(s, d, now),
           (k, s, now) => Valid(quota, k, s, now),
           (k, s, now) => true,
           (r, s, now) => Stricter(r, s, now))
  }

  /** Deadlines fit the sketch, and totals fit 64 bits. */
  predicate Fits(q: Quota, horizon: nat) {
    Open(q) ==>
      && q.limit <= U32_MAX && horizon + q.period <= LAST
      && Allotted(q, horizon) + 2 * q.limit <= U64_MAX
  }

  /** Every period outlasts the millisecond that `first_hint` reads ahead. */
  ghost predicate PeriodsOutlast(quota: nat -> Quota) {
    forall k: nat :: Open(quota(k)) ==> quota(k).period > NANOS_PER_MILLI
  }

  ghost predicate QuotasFit(quota: nat -> Quota, horizon: nat) { forall k: nat :: Fits(quota(k), horizon) }

  // ------------------------------------------------------------------- loads

  lemma FitsHere(quota: nat -> Quota, horizon: nat, k: nat)
    requires QuotasFit(quota, horizon)
    ensures Fits(quota(k), horizon)
  {
  }

  lemma Aligned(q: Quota, now: nat)
    requires q.period > 0
    ensures now / q.period * q.period <= now <= LastOf(q, now) < now + q.period
  {
    FloorParts(now, q.period);
  }

  lemma TotalIsPaced(s: Cell, now: nat)
    requires WellFormed(s.log) && Paced(s, now) && Load(s, now) <= s.q.limit
    ensures Total(s.log) <= Allotted(s.q, now) + s.q.limit
  {
    hide Allotted;
    Aligned(s.q, now);
    InWindowFalls(s.log, now, LastOf(s.q, now), s.q.period);
  }

  lemma TotalFits(s: Cell, horizon: nat, now: nat)
    requires WellFormed(s.log) && Paced(s, now) && Load(s, now) <= s.q.limit && Open(s.q) && Fits(s.q, horizon)
             && now < horizon
    ensures Total(s.log) + s.q.limit <= U64_MAX
  {
    hide InWindowAt, Allotted, WellFormed;
    TotalIsPaced(s, now);
    AllottedRises(s.q, now, horizon);
  }

  /** What a key owes: the units in its window, until the window is empty. */
  lemma Owes(quota: nat -> Quota, horizon: nat, k: nat, s: Cell, now: nat)
    requires QuotasFit(quota, horizon) && now < horizon && Valid(quota, k, s, now)
    ensures DebtOf(s, now) == if Load(s, now) == 0 then None else Some(Debt(Load(s, now), End(s)))
    ensures Load(s, now) > 0 ==> now < End(s) <= now + s.q.period <= LAST
    ensures Load(s, now) <= s.q.limit <= U32_MAX
  {
    FitsHere(quota, horizon, k);
    hide InWindowAt, Peek, QuotasFit, Paced, WellFormed, Cut, Expire, Allotted;
    PeekCounts(s.q, s.log, now);
    PeekReset(s.q, s.log, now);
    WindowEmptyIff(s.log, now, s.q.period);
  }

  /** A load only falls, and is gone exactly from its end on. */
  lemma LoadFalls(quota: nat -> Quota, horizon: nat, k: nat, s: Cell, now: nat, t: nat)
    requires QuotasFit(quota, horizon) && now < horizon && Valid(quota, k, s, now) && now <= t
    ensures Load(s, t) <= Load(s, now)
    ensures Load(s, now) > 0 ==> (Load(s, t) == 0 <==> t >= End(s))
  {
    FitsHere(quota, horizon, k);
    InWindowFalls(s.log, now, t, s.q.period);
    WindowEmptyIff(s.log, t, s.q.period);
    WindowEmptyIff(s.log, now, s.q.period);
    hide InWindowAt, QuotasFit, Paced, WellFormed;
  }

  lemma ValidLater(quota: nat -> Quota, horizon: nat, k: nat, s: Cell, now: nat, t: nat)
    requires Valid(quota, k, s, now) && now <= t
    ensures Valid(quota, k, s, t)
  {
    hide InWindowAt, Allotted, WellFormed;
    InWindowFalls(s.log, now, t, s.q.period);
    TotalIsPaced(s, now);
    AllottedRises(s.q, now, t);
    FloorMonotone(now, t, s.q.period);
  }

  /** Pruning changes no load from then on. */
  lemma Prunes(quota: nat -> Quota, k: nat, s: Cell, now: nat, log: Log)
    requires Valid(quota, k, s, now) && log == Expire(s.log, now, s.q.period)
    ensures Valid(quota, k, Cell(s.q, log), now)
    ensures forall t: nat :: now <= t ==> Load(Cell(s.q, log), t) == Load(s, t)
  {
    hide InWindowAt, WellFormed, Expire;
    ExpireKeepsShape(s.log, now, s.q.period);
    ExpireKeepsBack(s.log, now, s.q.period);
    forall t: nat | now <= t ensures Load(Cell(s.q, log), t) == Load(s, t) {
      ExpireKeepsLater(s.log, now, t, s.q.period);
    }
    Aligned(s.q, now);
  }

  lemma Looks(quota: nat -> Quota, horizon: nat, k: nat, s: Cell, now: nat)
    requires QuotasFit(quota, horizon) && now < horizon && Valid(quota, k, s, now)
    ensures Valid(quota, k, Look(s, now), now)
    ensures forall t: nat :: now <= t ==> Load(Look(s, now), t) == Load(s, t)
    ensures Look(s, now).log == Expire(s.log, now, s.q.period) && Look(s, now).q == s.q
  {
    FitsHere(quota, horizon, k);
    Prunes(quota, k, s, now, Expire(s.log, now, s.q.period));
    hide InWindowAt, WellFormed, Expire, QuotasFit, Paced;
  }

  /** Recording adds the units for one period. */
  lemma Records(quota: nat -> Quota, horizon: nat, k: nat, s: Cell, n: nat, now: nat)
    requires QuotasFit(quota, horizon) && now < horizon && Valid(quota, k, s, now) && n > 0
             && Load(s, now) + n <= s.q.limit
    ensures var s' := Cell(s.q, Record(s.log, n, now));
            && Valid(quota, k, s', now)
            && forall t: nat :: now <= t ==> Load(s', t) == Load(s, t) + if t < now + s.q.period then n else 0
  {
    FitsHere(quota, horizon, k);
    TotalFits(s, horizon, now);
    RecordKeepsShape(s.log, n, now);
    var s' := Cell(s.q, Record(s.log, n, now));
    hide InWindowAt, WellFormed, Record, QuotasFit;
    forall t: nat | now <= t ensures Load(s', t) == Load(s, t) + if t < now + s.q.period then n else 0 {
      RecordAdds(s.log, n, now, t, s.q.period);
    }
    Aligned(s.q, now);
  }

  lemma AcquireIs(s: Cell, n: nat, now: nat)
    requires Open(s.q) && WellFormed(s.log) && (s.log.runs != [] ==> Back(s.log).at <= now) && 0 < n <= s.q.limit
             && now <= U64_MAX
    ensures var live := Expire(s.log, now, s.q.period);
            var (d, s') := Acquire(s, n, now);
            && (d == Allow <==> Load(s, now) + n <= s.q.limit)
            && s' == Cell(s.q, if d == Allow then Record(live, n, now) else live)
  {
    hide InWindowAt, WellFormed, Record, Expire, InWindow, ExpireAt, Cut;
    ExpireKeepsShape(s.log, now, s.q.period);
  }

  /** An admission is decided by the load and adds to it; a denial changes
      nothing. */
  lemma Charges(quota: nat -> Quota, horizon: nat, k: nat, s: Cell, n: nat, now: nat)
    requires QuotasFit(quota, horizon) && now < horizon && Valid(quota, k, s, now)
    ensures var (d, s') := Acquire(s, n, now);
            && Valid(quota, k, s', now)
            && (d == Allow <==> n == 0 || Load(s, now) + n <= s.q.limit)
            && forall t: nat :: now <= t ==>
                 Load(s', t) == Load(s, t) + if d == Allow && t < now + s.q.period then n else 0
  {
    if 0 < n <= s.q.limit {
      FitsHere(quota, horizon, k);
      hide InWindowAt, WellFormed, Record, Expire, QuotasFit, Paced, Acquire;
      AcquireIs(s, n, now);
      var live := Expire(s.log, now, s.q.period);
      Prunes(quota, k, s, now, live);
      if Load(s, now) + n <= s.q.limit { Records(quota, horizon, k, Cell(s.q, live), n, now); }
    } else {
      hide InWindowAt, WellFormed, Record, Expire, QuotasFit, Paced;
    }
  }

  lemma Starts(quota: nat -> Quota, k: nat, now: nat)
    requires Create(quota, k).Some?
    ensures var s := Create(quota, k).value;
            Valid(quota, k, s, now) && s.q == quota(k) && forall t: nat :: Load(s, t) == 0
  {
    hide Allotted;
    assert Total(Empty) == 0;
  }

  // ---------------------------------------------------------------- the order

  lemma ValidQuota(quota: nat -> Quota, k: nat, s: Cell, now: nat)
    requires Valid(quota, k, s, now)
    ensures s.q == quota(k) && Open(s.q)
  {
  }

  lemma AcquireKeepsQuota(s: Cell, n: nat, now: nat)
    ensures Acquire(s, n, now).1.q == s.q
  {
    hide SlidingLog.Acquire;
  }

  /** Charging a fresh state with what was owed, now, is never looser than what
      owed it: its units were recorded no later. */
  lemma ResumeIsStricter(quota: nat -> Quota, horizon: nat, k: nat, s: Cell, c: Debt, now: nat)
    requires QuotasFit(quota, horizon) && now < horizon && Valid(quota, k, s, now) && DebtOf(s, now).Some?
    requires Create(quota, k).Some? && c.spent >= DebtOf(s, now).value.spent && c.until >= DebtOf(s, now).value.until
    ensures Stricter(Restore(Create(quota, k).value, c, now), s, now)
  {
    Starts(quota, k, now);
    hide QuotasFit, DebtOf, Acquire, Create, Load, Valid, End;
    ValidQuota(quota, k, s, now);
    Owes(quota, horizon, k, s, now);
    var f := Create(quota, k).value;
    Charges(quota, horizon, k, f, Min(c.spent, f.q.limit), now);
    AcquireKeepsQuota(f, Min(c.spent, f.q.limit), now);
    var r := Restore(f, c, now);
    forall t: nat | now <= t ensures Load(r, t) >= Load(s, t) {
      LoadFalls(quota, horizon, k, s, now, t);
    }
  }

  /** A fresh state charged with a debt owes exactly its units, up to the limit, and
      is granted exactly what those leave. */
  lemma ChargedOwes(quota: nat -> Quota, horizon: nat, k: nat, d: Debt, n: nat, now: nat)
    requires QuotasFit(quota, horizon) && now < horizon && Create(quota, k).Some? && (d.spent > 0 ==> d.until > now)
    ensures var (decision, s) := Acquire(Restore(Create(quota, k).value, d, now), n, now);
            var units := Min(d.spent, quota(k).limit);
            && (decision == Allow <==> n == 0 || units + n <= quota(k).limit)
            && UnitsOf(DebtOf(s, now)) == units + if decision == Allow then n else 0
  {
    Starts(quota, k, now);
    var f := Create(quota, k).value;
    ValidQuota(quota, k, f, now);
    hide QuotasFit, DebtOf, Acquire, Create, Load, Valid, End;
    Charges(quota, horizon, k, f, Min(d.spent, f.q.limit), now);
    AcquireKeepsQuota(f, Min(d.spent, f.q.limit), now);
    var r := Restore(f, d, now);
    Charges(quota, horizon, k, r, n, now);
    Owes(quota, horizon, k, Acquire(r, n, now).1, now);
  }

  lemma StricterSimulates(quota: nat -> Quota, horizon: nat, k: nat, r: Cell, s: Cell, n: nat, now: nat)
    requires QuotasFit(quota, horizon) && now < horizon && Valid(quota, k, r, now) && Valid(quota, k, s, now)
             && Stricter(r, s, now)
    ensures var (d, r') := Acquire(r, n, now);
            if d == Allow then Acquire(s, n, now).0 == Allow && Stricter(r', Acquire(s, n, now).1, now)
            else Stricter(r', s, now)
  {
    hide QuotasFit, Acquire, Valid, Load;
    Charges(quota, horizon, k, r, n, now);
    Charges(quota, horizon, k, s, n, now);
    AcquireKeepsQuota(r, n, now);
    AcquireKeepsQuota(s, n, now);
  }

  /** Loads decide debts. */
  lemma Compares(quota: nat -> Quota, horizon: nat, k: nat, r: Cell, s: Cell, now: nat)
    requires QuotasFit(quota, horizon) && now < horizon && Valid(quota, k, r, now) && Valid(quota, k, s, now)
    ensures Stricter(r, s, now) && DebtOf(s, now).Some? ==>
              && DebtOf(r, now).Some?
              && DebtOf(r, now).value.spent >= DebtOf(s, now).value.spent
              && DebtOf(r, now).value.until >= DebtOf(s, now).value.until
    ensures DebtOf(s, now).None? ==> Stricter(r, s, now)
    ensures (forall t: nat :: now <= t ==> Load(r, t) == Load(s, t)) ==> DebtOf(r, now) == DebtOf(s, now)
  {
    hide QuotasFit, DebtOf, Valid, Load, End;
    ValidQuota(quota, k, s, now);
    ValidQuota(quota, k, r, now);
    Owes(quota, horizon, k, r, now);
    Owes(quota, horizon, k, s, now);
    forall t: nat | now <= t
      ensures Load(s, t) <= Load(s, now)
      ensures Load(s, now) > 0 ==> (Load(s, t) == 0 <==> t >= End(s))
      ensures Load(r, now) > 0 ==> (Load(r, t) == 0 <==> t >= End(r))
    {
      LoadFalls(quota, horizon, k, s, now, t);
      LoadFalls(quota, horizon, k, r, now, t);
    }
    assert Load(s, now) > 0 && Load(r, now) > 0 ==> Load(r, End(r)) == 0 && Load(s, End(s)) == 0;
  }

  lemma DebtDecays(quota: nat -> Quota, horizon: nat, k: nat, s: Cell, now: nat, t: nat)
    requires QuotasFit(quota, horizon) && now <= t < horizon && Valid(quota, k, s, now)
    ensures match DebtOf(s, now)
            case None => DebtOf(s, t).None?
            case Some(d) =>
              && 0 < d.spent <= U32_MAX && now < d.until <= LAST
              && (DebtOf(s, t).None? <==> t >= d.until)
              && (DebtOf(s, t).Some? ==> DebtOf(s, t).value.spent <= d.spent && DebtOf(s, t).value.until == d.until)
  {
    hide QuotasFit, DebtOf, Valid, Load, End;
    Owes(quota, horizon, k, s, now);
    ValidLater(quota, horizon, k, s, now, t);
    Owes(quota, horizon, k, s, t);
    LoadFalls(quota, horizon, k, s, now, t);
  }

  // ----------------------------------------------------------- reading ahead

  lemma ExpireEmpty(l: Log, t: nat, period: nat)
    requires l.runs == []
    ensures Expire(l, t, period) == l
  {
  }

  lemma ExpireOne(l: Log, t: nat, period: nat)
    requires |l.runs| == 1
    ensures Expire(l, t, period) == if Aged(l.runs[0], t, period) then Log([], l.runs[0].total) else l
    ensures InWindowAt(l, t, period) == if Aged(l.runs[0], t, period) then 0 else SatSub(l.runs[0].total, l.expired)
  {
    hide Cut;
    CutIs(l.runs, t, period, if Aged(l.runs[0], t, period) then 1 else 0);
    assert l.runs[0..] == l.runs && l.runs[1..] == [];
  }

  /** The log after a fresh key's first admission. */
  lemma FirstRun(s: Cell, n: nat, now: nat)
    requires Open(s.q) && s.log.runs == [] && s.log.expired == 0 && 0 < n <= s.q.limit <= U32_MAX && now <= U64_MAX
    ensures var (d, s') := Acquire(s, n, now);
            d == Allow && s'.q == s.q && |s'.log.runs| == 1 && s'.log.runs[0] == Run(now, n) && s'.log.expired == 0
  {
    hide Cut, FirstReaching, ExpireAt, Expire;
    ExpireEmpty(s.log, now, s.q.period);
  }

  /** Pruned at a later instant, it is empty exactly if the period is over. */
  lemma PrunedAhead(s: Cell, n: nat, now: nat, b: nat)
    requires Open(s.q) && |s.log.runs| == 1 && s.log.runs[0] == Run(now, n) && s.log.expired == 0
    requires now <= b <= U64_MAX && now + s.q.period <= U64_MAX
    ensures Look(s, b) == if now + s.q.period <= b then Cell(s.q, Log([], n)) else s
  {
    hide Cut, Expire;
    ExpireOne(s.log, b, s.q.period);
  }

  lemma EmptyGrants(s: Cell, now: nat)
    requires Open(s.q) && s.log.runs == [] && now <= U64_MAX
    ensures Load(s, now) == 0 && Acquire(s, s.q.limit, now).0 == Allow
  {
    hide Cut, FirstReaching, ExpireAt, Expire;
    ExpireEmpty(s.log, now, s.q.period);
  }

  /** `first_hint` reads a new key's state at the next millisecond, which prunes
      it. What the key may still be granted right now is unchanged exactly when
      the period outlasts that read; otherwise its first request is forgotten at
      once, and the whole limit is granted again in the same instant. */
  lemma ReadingAheadIsHarmlessIff(fresh0: Cell, n: nat, now: nat, b: nat)
    requires Open(fresh0.q) && fresh0.log == Empty && 0 < n <= fresh0.q.limit <= U32_MAX
    requires now <= b <= U64_MAX && now + fresh0.q.period <= U64_MAX
    ensures var s := Acquire(fresh0, n, now).1;
            && (Load(Look(s, b), now) == Load(s, now) <==> b < now + fresh0.q.period)
            && Load(Look(s, b), now) <= Load(s, now)
            && (b >= now + fresh0.q.period ==> Acquire(Look(s, b), fresh0.q.limit, now).0 == Allow)
  {
    hide Cut, Expire, Acquire, Look;
    var s := Acquire(fresh0, n, now).1;
    FirstRun(fresh0, n, now);
    PrunedAhead(s, n, now, b);
    ExpireOne(s.log, now, s.q.period);
    if now + s.q.period <= b {
      EmptyGrants(Look(s, b), now);
    }
  }

  /** What the key may be granted is unchanged by the read `first_hint` makes
      after a first grant. */
  ghost predicate Harmless(q: Quota, n: nat, now: nat) {
    var s := Acquire(Cell(q, Empty), n, now).1;
    Load(Look(s, (Millis(now) + 1) * NANOS_PER_MILLI), now) == Load(s, now)
  }

  lemma HarmlessIff(q: Quota, n: nat, now: nat)
    requires Open(q) && 0 < n <= q.limit <= U32_MAX && now + q.period + NANOS_PER_MILLI <= U64_MAX
    ensures Harmless(q, n, now) <==> (Millis(now) + 1) * NANOS_PER_MILLI < now + q.period
  {
    hide Acquire, Look, Load;
    CeilMillisAfter(0, now);
    ReadingAheadIsHarmlessIff(Cell(q, Empty), n, now, (Millis(now) + 1) * NANOS_PER_MILLI);
  }

  /** A quota is harmless at every reading exactly if its period exceeds a
      millisecond: any other forgets a request made on the millisecond. */
  lemma AlwaysHarmlessIff(q: Quota)
    requires Open(q) && q.limit <= U32_MAX
    ensures (forall n: nat, now: nat ::
               0 < n <= q.limit && now + q.period + NANOS_PER_MILLI <= U64_MAX ==> Harmless(q, n, now))
            <==> q.period > NANOS_PER_MILLI
  {
    hide Harmless;
    if q.period > NANOS_PER_MILLI {
      forall n: nat, now: nat | 0 < n <= q.limit && now + q.period + NANOS_PER_MILLI <= U64_MAX
        ensures Harmless(q, n, now)
      {
        CeilMillisAfter(0, now);
        HarmlessIff(q, n, now);
      }
    } else {
      HarmlessIff(q, 1, 0);
    }
  }

  lemma LooksAheadOf(f: Cell, n: nat, now: nat, b: nat)
    requires Open(f.q) && f.q.limit <= U32_MAX && f.log.runs == [] && f.log.expired == 0
             && now < b < now + f.q.period <= U64_MAX
    ensures var s := Acquire(f, n, now).1; Look(s, b) == s
  {
    hide Cut, Expire, FirstReaching, ExpireAt;
    ExpireEmpty(f.log, b, f.q.period);
    if 0 < n <= f.q.limit {
      FirstRun(f, n, now);
      PrunedAhead(Acquire(f, n, now).1, n, now, b);
    }
  }

  lemma LooksAhead(quota: nat -> Quota, horizon: nat, k: nat, n: nat, now: nat, b: nat)
    requires QuotasFit(quota, horizon) && Create(quota, k).Some? && now < b <= now + NANOS_PER_MILLI && b < horizon
    requires quota(k).period > NANOS_PER_MILLI
    ensures var s := Acquire(Create(quota, k).value, n, now).1; Look(s, b) == s
  {
    FitsHere(quota, horizon, k);
    LooksAheadOf(Create(quota, k).value, n, now, b);
  }

  // -------------------------------------------------------------------- laws

  /** A key has a state exactly if its quota admits something. */
  lemma CreateIff(quota: nat -> Quota, k: nat)
    ensures Create(quota, k).None? <==> quota(k).limit == 0 || quota(k).period == 0
  {
  }

  lemma BasicLaws(quota: nat -> Quota, horizon: nat)
    requires QuotasFit(quota, horizon)
    ensures var o := Ops(quota, horizon);
            FreshLaw(o) && TimeLaw(o) && KeepLaw(o)
  {
    hide QuotasFit, Create, Acquire, DebtOf, Look, Valid, Stricter, Load;
    var o := Ops(quota, horizon);
    forall k: nat, now: nat | now < horizon && o.create(k, now).Some?
      ensures var s := o.create(k, now).value; o.valid(k, s, now) && o.native(k, s, now) && o.debt(s, now).None?
    {
      Starts(quota, k, now);
      Owes(quota, horizon, k, Create(quota, k).value, now);
    }
    forall k: nat, s: Cell, now: nat | o.valid(k, s, now) ensures o.create(k, now).Some? {
      ValidQuota(quota, k, s, now);
      CreateIff(quota, k);
    }
    forall k: nat, s: Cell, now: nat, t: nat | o.valid(k, s, now) && now <= t
      ensures o.valid(k, s, t)
    {
      ValidLater(quota, horizon, k, s, now, t);
    }
    forall k: nat, s: Cell, n: nat, now: nat | o.valid(k, s, now) && now < horizon
      ensures o.valid(k, o.acquire(s, n, now).1, now)
    {
      Charges(quota, horizon, k, s, n, now);
    }
    forall k: nat, s: Cell, d: Debt, now: nat | o.valid(k, s, now) && now < horizon
      ensures o.valid(k, o.restore(s, d, now), now)
    {
      Charges(quota, horizon, k, s, Min(d.spent, s.q.limit), now);
    }
    forall k: nat, s: Cell, now: nat | o.valid(k, s, now) && now < horizon
      ensures o.valid(k, o.look(s, now), now)
    {
      Looks(quota, horizon, k, s, now);
    }
  }

  lemma LookKeeps(quota: nat -> Quota, horizon: nat, k: nat, s: Cell, now: nat, t: nat)
    requires QuotasFit(quota, horizon) && Valid(quota, k, s, now) && now <= t < horizon
    ensures Valid(quota, k, Look(s, now), now) && DebtOf(Look(s, now), t) == DebtOf(s, t)
  {
    hide QuotasFit, DebtOf, Look, Valid, Load;
    Looks(quota, horizon, k, s, now);
    ValidLater(quota, horizon, k, s, now, t);
    ValidLater(quota, horizon, k, Look(s, now), now, t);
    Compares(quota, horizon, k, Look(s, now), s, t);
  }

  lemma LookLaws(quota: nat -> Quota, horizon: nat)
    requires QuotasFit(quota, horizon)
    ensures LookLaw(Ops(quota, horizon))
  {
    hide QuotasFit, Create, Acquire, DebtOf, Look, Valid, Stricter, Load;
    var o := Ops(quota, horizon);
    forall k: nat, s: Cell, now: nat, t: nat | o.valid(k, s, now) && now <= t < horizon
      ensures o.debt(o.look(s, now), t) == o.debt(s, t)
    {
      LookKeeps(quota, horizon, k, s, now, t);
    }
  }

  lemma DebtLaws(quota: nat -> Quota, horizon: nat)
    requires QuotasFit(quota, horizon)
    ensures DebtLaw(Ops(quota, horizon)) && NativeLaw(Ops(quota, horizon))
  {
    hide QuotasFit, Create, Acquire, DebtOf, Restore, Look, Valid, Stricter;
    forall k: nat, s: Cell, now: nat, t: nat | Valid(quota, k, s, now) && now <= t < horizon
      ensures match DebtOf(s, now)
              case None => DebtOf(s, t).None?
              case Some(d) =>
                && 0 < d.spent <= U32_MAX && now < d.until <= LAST
                && (DebtOf(s, t).None? <==> t >= d.until)
                && (DebtOf(s, t).Some? ==> DebtOf(s, t).value.spent <= d.spent && DebtOf(s, t).value.until == d.until)
    {
      DebtDecays(quota, horizon, k, s, now, t);
    }
  }

  lemma StricterLasts(r: Cell, s: Cell, now: nat, t: nat)
    requires Stricter(r, s, now) && now <= t
    ensures Stricter(r, s, t)
  {
    hide Load;
  }

  lemma LookStaysStricter(quota: nat -> Quota, horizon: nat, k: nat, r: Cell, s: Cell, now: nat)
    requires QuotasFit(quota, horizon) && Valid(quota, k, r, now) && Stricter(r, s, now) && now < horizon
    ensures Stricter(Look(r, now), s, now)
  {
    Looks(quota, horizon, k, r, now);
    hide Load, Look, Valid, QuotasFit;
  }

  lemma OrderLaws(quota: nat -> Quota, horizon: nat)
    requires QuotasFit(quota, horizon)
    ensures StricterLaw(Ops(quota, horizon)) && ResumeLaw(Ops(quota, horizon))
  {
    hide QuotasFit, Create, Acquire, DebtOf, Restore, Look, Valid, Stricter;
    var o := Ops(quota, horizon);
    forall k: nat, r: Cell, s: Cell, now: nat, n: nat
      | Valid(quota, k, r, now) && Valid(quota, k, s, now) && Stricter(r, s, now) && now < horizon
      ensures var (d, r') := Acquire(r, n, now);
              if d == Allow then Acquire(s, n, now).0 == Allow && Stricter(r', Acquire(s, n, now).1, now)
              else Stricter(r', s, now)
    {
      StricterSimulates(quota, horizon, k, r, s, n, now);
    }
    forall r: Cell, s: Cell, now: nat,
      t: nat {:trigger Stricter(r, s, now), Stricter(r, s, t)} | Stricter(r, s, now) && now <= t
      ensures Stricter(r, s, t)
    {
      StricterLasts(r, s, now, t);
    }
    forall k: nat, r: Cell, s: Cell, now: nat {:trigger Valid(quota, k, r, now), Stricter(r, s, now), Look(r, now)}
      | Valid(quota, k, r, now) && Stricter(r, s, now) && now < horizon
      ensures Stricter(Look(r, now), s, now)
    {
      LookStaysStricter(quota, horizon, k, r, s, now);
    }
    forall k: nat, r: Cell, s: Cell, now: nat
      | Valid(quota, k, r, now) && Valid(quota, k, s, now) && now < horizon
      ensures Stricter(r, s, now) && DebtOf(s, now).Some? ==>
                && DebtOf(r, now).Some?
                && DebtOf(r, now).value.spent >= DebtOf(s, now).value.spent
                && DebtOf(r, now).value.until >= DebtOf(s, now).value.until
      ensures DebtOf(s, now).None? ==> Stricter(r, s, now)
    {
      Compares(quota, horizon, k, r, s, now);
    }
    forall k: nat, s: Cell, now: nat, c: Debt
      | Valid(quota, k, s, now) && now < horizon && DebtOf(s, now).Some? && Create(quota, k).Some?
        && c.spent >= DebtOf(s, now).value.spent && c.until >= DebtOf(s, now).value.until
      ensures Stricter(Restore(Create(quota, k).value, c, now), s, now)
    {
      ResumeIsStricter(quota, horizon, k, s, c, now);
    }
  }

  /** The sliding log obeys the laws of restoring, whatever the period. */
  lemma LogIsOrderly(quota: nat -> Quota, horizon: nat)
    requires QuotasFit(quota, horizon)
    ensures Orderly(Ops(quota, horizon))
  {
    BasicLaws(quota, horizon);
    LookLaws(quota, horizon);
    DebtLaws(quota, horizon);
    OrderLaws(quota, horizon);
  }

  lemma CreatedIsOpen(quota: nat -> Quota, k: nat)
    ensures Create(quota, k).Some? <==> Open(quota(k))
  {
  }

  lemma FirstLaws(quota: nat -> Quota, horizon: nat)
    requires QuotasFit(quota, horizon) && PeriodsOutlast(quota)
    ensures FirstLaw(Ops(quota, horizon))
  {
    hide QuotasFit, Create, Acquire, DebtOf, Look, Valid, Stricter, Load;
    var o := Ops(quota, horizon);
    forall k: nat, now: nat, n: nat | o.create(k, now).Some? && now < horizon
      ensures var (d, s) := o.acquire(o.create(k, now).value, n, now);
              o.debt(s, now).Some? <==> n > 0 && d == Allow
      ensures o.valid(k, o.acquire(o.create(k, now).value, n, now).1, now)
    {
      Starts(quota, k, now);
      var f := Create(quota, k).value;
      FitsHere(quota, horizon, k);
      ValidQuota(quota, k, f, now);
      Charges(quota, horizon, k, f, n, now);
      Owes(quota, horizon, k, Acquire(f, n, now).1, now);
    }
    forall k: nat, now: nat, n: nat, b: nat {:trigger o.look(o.acquire(o.create(k, now).value, n, now).1, b)}
      | o.create(k, now).Some? && now < b <= now + NANOS_PER_MILLI && b < horizon
      ensures var s := o.acquire(o.create(k, now).value, n, now).1; o.look(s, b) == s
    {
      CreatedIsOpen(quota, k);
      LooksAhead(quota, horizon, k, n, now, b);
    }
  }

  /** It obeys those of the store if every period outlasts a read ahead. */
  lemma LogIsLawful(quota: nat -> Quota, horizon: nat)
    requires QuotasFit(quota, horizon) && PeriodsOutlast(quota)
    ensures Lawful(Ops(quota, horizon))
  {
    hide QuotasFit, PeriodsOutlast, Orderly, FirstLaw;
    LogIsOrderly(quota, horizon);
    FirstLaws(quota, horizon);
  }

  lemma LooserIsNotStricter(r: Cell, s: Cell, now: nat)
    ensures Load(r, now) < Load(s, now) ==> !Stricter(r, s, now)
  {
    hide Load;
  }

  /** A first request at 0, read at the next millisecond, is forgotten. */
  lemma ShortPeriodBreaksFirstLaw(quota: nat -> Quota, horizon: nat, k: nat)
    requires QuotasFit(quota, horizon) && horizon > NANOS_PER_MILLI
    requires Open(quota(k)) && quota(k).period <= NANOS_PER_MILLI
    ensures !FirstLaw(Ops(quota, horizon))
  {
    FitsHere(quota, horizon, k);
    Starts(quota, k, 0);
    var o, f := Ops(quota, horizon), Create(quota, k).value;
    Charges(quota, horizon, k, f, 1, 0);
    var s := Acquire(f, 1, 0).1;
    ReadingAheadIsHarmlessIff(f, 1, 0, NANOS_PER_MILLI);
    hide QuotasFit, Create, Acquire, DebtOf, Look, Valid, Load, Allotted;
    assert o.stricter(s, s, 0);
    LooserIsNotStricter(Look(s, NANOS_PER_MILLI), s, 0);
    if FirstLaw(o) { KeyLaws.LooksAhead(o, k, 1, 0, NANOS_PER_MILLI, s); }
  }

  /** And only then: it obeys them exactly if every period outlasts a read ahead. */
  lemma LogIsLawfulIff(quota: nat -> Quota, horizon: nat)
    requires QuotasFit(quota, horizon) && horizon > NANOS_PER_MILLI
    ensures Lawful(Ops(quota, horizon)) <==> PeriodsOutlast(quota)
  {
    hide QuotasFit, Orderly, FirstLaw;
    LogIsOrderly(quota, horizon);
    if PeriodsOutlast(quota) {
      LogIsLawful(quota, horizon);
    } else {
      var k: nat :| Open(quota(k)) && quota(k).period <= NANOS_PER_MILLI;
      ShortPeriodBreaksFirstLaw(quota, horizon, k);
    }
  }

  // ------------------------------------------------------------ coming back

  /** A key that left owing `d` comes back, charged through the whole milliseconds
      of its record, and asks for `n`: the answer, and what it then owes. */
  function ComesBack(quota: nat -> Quota, k: nat, d: Debt, n: nat, now: nat): (Decision, Option<Debt>)
    requires Open(quota(k))
  {
    var s := Restore(Create(quota, k).value, Debt(d.spent, CeilMillis(d.until) * NANOS_PER_MILLI), now);
    var (decision, s') := Acquire(s, n, now);
    (decision, DebtOf(s', now))
  }

  lemma ChargedAnew(quota: nat -> Quota, horizon: nat, k: nat, f: Cell, spent: nat, now: nat)
    requires QuotasFit(quota, horizon) && Create(quota, k) == Some(f) && now < horizon && 0 < spent <= f.q.limit
    ensures var s := Acquire(f, spent, now).1;
            && Valid(quota, k, s, now) && Load(s, now) == spent && s.q == f.q == quota(k)
            && DebtOf(s, now) == Some(Debt(spent, now + f.q.period))
  {
    FitsHere(quota, horizon, k);
    Starts(quota, k, now);
    FirstRun(f, spent, now);
    Charges(quota, horizon, k, f, spent, now);
    var s := Acquire(f, spent, now).1;
    assert End(s) == now + f.q.period;
    hide QuotasFit, Acquire, DebtOf, Valid, Load, Create, End;
    Owes(quota, horizon, k, s, now);
  }

  lemma DeniedOwesTheSame(quota: nat -> Quota, horizon: nat, k: nat, s: Cell, n: nat, now: nat)
    requires QuotasFit(quota, horizon) && now < horizon && Valid(quota, k, s, now) && n > 0
             && Load(s, now) + n > s.q.limit
    ensures var (decision, s') := Acquire(s, n, now); decision != Allow && DebtOf(s', now) == DebtOf(s, now)
  {
    hide QuotasFit, Acquire, DebtOf, Valid, Load;
    Charges(quota, horizon, k, s, n, now);
    Compares(quota, horizon, k, Acquire(s, n, now).1, s, now);
  }

  lemma CreateIs(quota: nat -> Quota, k: nat)
    requires Open(quota(k))
    ensures Create(quota, k).Some? && Create(quota, k).value.q == quota(k)
  {
  }

  lemma RestoreIs(f: Cell, spent: nat, until: nat, now: nat)
    requires 0 < spent <= f.q.limit && now < until
    ensures Restore(f, Debt(spent, until), now) == Acquire(f, spent, now).1
  {
    hide Acquire;
  }

  /** The whole count is charged anew, for a whole period from now, however little
      of the debt was left. */
  lemma ComesBackOwing(quota: nat -> Quota, horizon: nat, k: nat, d: Debt, n: nat, now: nat)
    requires QuotasFit(quota, horizon) && Open(quota(k)) && now < horizon
    requires 0 < d.spent <= quota(k).limit < d.spent + n && now < CeilMillis(d.until) * NANOS_PER_MILLI
    ensures var (decision, owed) := ComesBack(quota, k, d, n, now);
            decision != Allow && owed == Some(Debt(d.spent, now + quota(k).period))
  {
    hide QuotasFit, Acquire, DebtOf, Valid, Load, Create, CeilMillis;
    CreateIs(quota, k);
    var f := Create(quota, k).value;
    ChargedAnew(quota, horizon, k, f, d.spent, now);
    DeniedOwesTheSame(quota, horizon, k, Acquire(f, d.spent, now).1, n, now);
    RestoreIs(f, d.spent, CeilMillis(d.until) * NANOS_PER_MILLI, now);
  }

  /** Each time it comes back before the debt of the last time is over. */
  ghost predicate InSuccession(until: nat, period: nat, times: seq<nat>)
    decreases |times|
  {
    if times == [] then true
    else times[0] < CeilMillis(until) * NANOS_PER_MILLI && InSuccession(times[0] + period, period, times[1..])
  }

  /** What it owes after coming back at each of `times`, asking for `n`, and being
      evicted each time. */
  function ComesBackAgain(quota: nat -> Quota, k: nat, d: Debt, n: nat, times: seq<nat>): Option<Debt>
    requires Open(quota(k))
    decreases |times|
  {
    if times == [] then Some(d)
    else
      match ComesBack(quota, k, d, n, times[0]).1
      case None => None
      case Some(e) => ComesBackAgain(quota, k, e, n, times[1..])
  }

  lemma OnceMore(quota: nat -> Quota, k: nat, d: Debt, n: nat, times: seq<nat>, e: Debt)
    requires Open(quota(k)) && times != [] && ComesBack(quota, k, d, n, times[0]).1 == Some(e)
    ensures ComesBackAgain(quota, k, d, n, times) == ComesBackAgain(quota, k, e, n, times[1..])
    ensures |times| == 1 ==> ComesBackAgain(quota, k, d, n, times) == Some(e)
  {
    hide ComesBack;
    assert |times| == 1 ==> times[1..] == [];
  }

  /** A key can be held back for as long as it keeps coming back, though it is never
      granted anything: after any number of returns, each before the debt of the
      last one is over, it owes the same count until a period after the last. That
      is at most one window after the first deadline exactly if the last return
      was no later than that deadline. */
  lemma {:induction false} ReturnsHoldIff(quota: nat -> Quota, horizon: nat, k: nat, d: Debt, n: nat, times: seq<nat>)
    requires QuotasFit(quota, horizon) && Open(quota(k)) && 0 < d.spent <= quota(k).limit < d.spent + n
    requires times != [] && InSuccession(d.until, quota(k).period, times)
    requires forall i :: 0 <= i < |times| ==> times[i] < horizon
    ensures var last, owed := times[|times| - 1], ComesBackAgain(quota, k, d, n, times);
            && owed == Some(Debt(d.spent, last + quota(k).period))
            && (owed.value.until <= d.until + quota(k).period <==> last <= d.until)
    decreases |times|
  {
    hide QuotasFit, ComesBack, CeilMillis, ComesBackAgain;
    ComesBackOwing(quota, horizon, k, d, n, times[0]);
    var e := Debt(d.spent, times[0] + quota(k).period);
    OnceMore(quota, k, d, n, times, e);
    if |times| > 1 { ReturnsHoldIff(quota, horizon, k, e, n, times[1..]); }
  }
}
