/** The sliding window counter as a key's state (src/algo/mod.rs:264-281): it
    obeys the laws of restoring for every period, and those of the store exactly
    for periods of at least a millisecond. */
module KeyCounter {
  import opened Units
  import opened Division
  import opened SlidingCounter
  import opened KeyLaws

  datatype Cell = Cell(q: Quota, counts: Counts)

  predicate Open(q: Quota) { q.limit > 0 && q.period > 0 }

  function Create(quota: nat -> Quota, k: nat, now: nat): Option<Cell> {
    if Open(quota(k)) then Some(Cell(quota(k), New(quota(k), now))) else None
  }

  function Acquire(s: Cell, n: nat, now: nat): (Decision, Cell) {
    var (d, counts) := SlidingCounter.Acquire(s.q, s.counts, n, now);
    (d, Cell(s.q, counts))
  }

  function DebtOf(s: Cell, now: nat): Option<Debt> {
    var (remaining, reset, _) := Peek(s.q, s.counts, now);
    var spent := SatSub(s.q.limit, remaining);
    if spent > 0 then Some(Debt(spent, now + reset)) else None
  }

  function Look(s: Cell, now: nat): Cell { Cell(s.q, Peek(s.q, s.counts, now).2) }

  function Restore(s: Cell, d: Debt, now: nat): Cell {
    if d.until <= now || d.spent == 0 then s else Acquire(s, Min(d.spent, s.q.limit), now).1
  }

  /** The weight of the counts at `t`. */
  function Load(s: Cell, t: nat): nat { Weight(s.q, s.counts, t) }

  /** When both counts have faded. */
  function End(s: Cell): nat {
    if s.counts.curr > 0 then (s.counts.window + 2) * s.q.period
    else if s.counts.prev > 0 then (s.counts.window + 1) * s.q.period else 0
  }

  /** Where a counter's window starts. */
  function StartOf(s: Cell): nat { s.counts.window * s.q.period }

  /** The counter may be a millisecond ahead of the clock: `first_hint` reads that
      far. */
  predicate Valid(quota: nat -> Quota, k: nat, s: Cell, now: nat) {
    && s.q == quota(k) && Open(s.q) && StartOf(s) <= now + NANOS_PER_MILLI
    && s.counts.prev <= s.q.limit && s.counts.curr <= s.q.limit && Load(s, now) <= s.q.limit * s.q.period
  }

  predicate Native(s: Cell, now: nat) { StartOf(s) <= now }

  ghost predicate Stricter(r: Cell, s: Cell, now: nat) {
    r.q == s.q && forall t: nat :: now <= t ==> Load(r, t) >= Load(s, t)
  }

  ghost function Ops(quota: nat -> Quota, horizon: nat): KeyOps<Cell> {
    KeyOps(horizon,
           (k, now) => Create(quota, k, now),
           (s, n, now) => Acquire(s, n, now),
           (s, now) => DebtOf(s, now),
           (s, now) => DebtOf(s, now).None?,
           (s, now) => Look(s, now),
           (s, d, now) => Restore(s, d, now),
           (k, s, now) => Valid(quota, k, s, now),
           (k, s, now) => Native(s, now),
           (r, s, now) => Stricter(r, s, now))
  }

  /** Deadlines fit the sketch. */
  predicate Fits(q: Quota, horizon: nat) {
    Open(q) ==> Usable(q) && horizon + NANOS_PER_MILLI + 2 * q.period <= LAST
  }

  /** Every period is at least the millisecond that `first_hint` reads ahead. */
  ghost predicate PeriodsOutlast(quota: nat -> Quota) {
    forall k: nat :: Open(quota(k)) ==> quota(k).period >= NANOS_PER_MILLI
  }

  ghost predicate QuotasFit(quota: nat -> Quota, horizon: nat) { forall k: nat :: Fits(quota(k), horizon) }

  // ------------------------------------------------------------------- loads

  lemma FitsHere(quota: nat -> Quota, horizon: nat, k: nat)
    requires QuotasFit(quota, horizon)
    ensures Fits(quota(k), horizon)
  {
  }

  lemma ZeroIff(s: Cell, t: nat)
    requires s.q.period > 0
    ensures Load(s, t) == 0 <==> t >= End(s)
  {
    hide Weight;
    WeightZeroIff(s.q, s.counts, t);
    Boundaries(s.q, s.counts.window);
  }

  lemma EndFits(s: Cell, horizon: nat, now: nat)
    requires Fits(s.q, horizon) && Open(s.q) && now < horizon && StartOf(s) <= now + NANOS_PER_MILLI
    ensures End(s) <= now + NANOS_PER_MILLI + 2 * s.q.period <= LAST
    ensures StartOf(s) <= U64_MAX && Max(now, StartOf(s)) + 2 * s.q.period <= U64_MAX
  {
    Boundaries(s.q, s.counts.window);
  }

  lemma StartIs(s: Cell)
    ensures StartOf(s) == s.counts.window * s.q.period
  {
  }

  lemma CeilDivZeroIff(a: nat, d: nat)
    requires d > 0
    ensures CeilDiv(a, d) == 0 <==> a == 0
  {
    CeilIff(a, d, 0);
  }

  /** What a key owes: the weight in whole units, until it has faded. */
  lemma Owes(quota: nat -> Quota, horizon: nat, k: nat, s: Cell, now: nat)
    requires QuotasFit(quota, horizon) && now < horizon && Valid(quota, k, s, now)
    ensures s.q.period > 0
    ensures DebtOf(s, now) == if Load(s, now) == 0 then None else Some(Debt(CeilDiv(Load(s, now), s.q.period), End(s)))
    ensures Load(s, now) > 0 ==> now < End(s) <= LAST && 0 < CeilDiv(Load(s, now), s.q.period)
    ensures CeilDiv(Load(s, now), s.q.period) <= s.q.limit <= U32_MAX
  {
    FitsHere(quota, horizon, k);
    EndFits(s, horizon, now);
    hide Weight, Peek, QuotasFit, End, StartOf, CeilDiv;
    PeekCounts(s.q, s.counts, now);
    ZeroIff(s, now);
    CeilDivZeroIff(Load(s, now), s.q.period);
    if Load(s, now) > 0 {
      var until := now + Peek(s.q, s.counts, now).1;
      ZeroIff(s, End(s));
      StartIs(s);
      PeekWaits(s.q, s.counts, now, End(s));
      assert until <= End(s);
      ZeroIff(s, until);
      PeekWaits(s.q, s.counts, now, until);
    }
  }

  lemma ValidLater(quota: nat -> Quota, horizon: nat, k: nat, s: Cell, now: nat, t: nat)
    requires Valid(quota, k, s, now) && now <= t
    ensures Valid(quota, k, s, t) && Load(s, t) <= Load(s, now)
  {
    hide Weight, StartOf;
    WeightFalls(s.q, s.counts, now, t);
  }

  /** Rolling changes no weight from then on. */
  lemma Rolls(quota: nat -> Quota, horizon: nat, k: nat, s: Cell, now: nat, r: Cell)
    requires QuotasFit(quota, horizon) && now < horizon && Valid(quota, k, s, now)
    requires r == Cell(s.q, Roll(s.q, s.counts, now).0)
    ensures Valid(quota, k, r, now) && (Native(s, now) ==> Native(r, now))
    ensures r.counts.window == Max(now, StartOf(s)) / s.q.period
    ensures forall t: nat :: now <= t ==> Load(r, t) == Load(s, t)
  {
    FitsHere(quota, horizon, k);
    EndFits(s, horizon, now);
    hide Weight, QuotasFit, Roll;
    RollNumber(s.q, s.counts, now);
    RollCases(s.q, s.counts, now);
    forall t: nat | now <= t ensures Load(r, t) == Load(s, t) {
      RollKeepsLater(s.q, s.counts, now, t);
    }
  }

  lemma ValidQuota(quota: nat -> Quota, k: nat, s: Cell, now: nat)
    requires Valid(quota, k, s, now)
    ensures s.q == quota(k) && Open(s.q)
  {
  }

  lemma Looks(quota: nat -> Quota, horizon: nat, k: nat, s: Cell, now: nat)
    requires QuotasFit(quota, horizon) && now < horizon && Valid(quota, k, s, now)
    ensures Valid(quota, k, Look(s, now), now) && Look(s, now).q == s.q
    ensures forall t: nat :: now <= t ==> Load(Look(s, now), t) == Load(s, t)
  {
    FitsHere(quota, horizon, k);
    Rolls(quota, horizon, k, s, now, Cell(s.q, Roll(s.q, s.counts, now).0));
    hide Weight, QuotasFit, Roll, Remaining, FullIn, Load, Valid;
    assert s.q.limit > 0 && s.q.period > 0 by { ValidQuota(quota, k, s, now); }
  }

  /** What `n` units counted in window `w` weigh at `t`. */
  function Added(q: Quota, w: nat, n: nat, t: nat): nat { n * Share(q.period, (w + 2) * q.period, t) }

  lemma Distributes(a: nat, b: nat, c: nat)
    ensures (a + b) * c == a * c + b * c
  {
  }

  lemma Counted(s: Cell, n: nat, t: nat)
    ensures Load(Cell(s.q, s.counts.(curr := s.counts.curr + n)), t) == Load(s, t) + Added(s.q, s.counts.window, n, t)
  {
    var c := s.counts;
    Distributes(c.curr, n, Share(s.q.period, (c.window + 2) * s.q.period, t));
    hide Share;
  }

  /** Until its window ends a unit weighs a whole period. */
  lemma WeighsWhole(q: Quota, w: nat, n: nat, t: nat)
    requires t <= (w + 1) * q.period
    ensures Added(q, w, n, t) == n * q.period
  {
    Boundaries(q, w);
  }

  /** The window a request at `now` is counted in. */
  function CountedIn(s: Cell, now: nat): nat
    requires s.q.period > 0
  {
    Max(now, StartOf(s)) / s.q.period
  }

  lemma CurrWeighs(s: Cell, now: nat)
    requires now <= (s.counts.window + 1) * s.q.period
    ensures s.counts.curr * s.q.period <= Load(s, now)
  {
    WeighsWhole(s.q, s.counts.window, s.counts.curr, now);
    MulMonotone(0, s.counts.prev, Share(s.q.period, (s.counts.window + 1) * s.q.period, now));
    hide Share;
  }

  /** Counting fits the limit and keeps the state valid. */
  lemma CountingKeeps(quota: nat -> Quota, k: nat, s: Cell, n: nat, now: nat)
    requires Valid(quota, k, s, now) && FitsAt(s.q, s.counts, n, now) && now <= (s.counts.window + 1) * s.q.period
    ensures s.counts.curr + n <= s.q.limit
    ensures Valid(quota, k, Cell(s.q, s.counts.(curr := s.counts.curr + n)), now)
  {
    Counted(s, n, now);
    WeighsWhole(s.q, s.counts.window, n, now);
    CurrWeighs(s, now);
    Distributes(s.counts.curr, n, s.q.period);
    MulCancel(s.counts.curr + n, s.q.limit, s.q.period);
    hide Weight, Added;
  }

  /** Within 32 bits no count saturates. */
  lemma AcquireIs(quota: nat -> Quota, horizon: nat, k: nat, s: Cell, n: nat, now: nat)
    requires QuotasFit(quota, horizon) && now < horizon && Valid(quota, k, s, now) && 0 < n <= s.q.limit
    ensures var r := Roll(s.q, s.counts, now).0;
            var (d, s') := Acquire(s, n, now);
            && (d == Allow <==> FitsAt(s.q, s.counts, n, now))
            && s'.q == s.q && s'.counts == (if d == Allow then r.(curr := Min(r.curr + n, U32_MAX)) else r)
  {
    FitsHere(quota, horizon, k);
    EndFits(s, horizon, now);
    hide Weight, QuotasFit, Roll, EarliestFit, SlidingCounter.Fits, FitsAt, Load;
    AdmittedIff(s.q, s.counts, n, now);
  }

  lemma SameFit(s: Cell, r: Cell, n: nat, now: nat)
    requires s.q == r.q && Load(s, now) == Load(r, now)
    ensures FitsAt(s.q, s.counts, n, now) <==> FitsAt(r.q, r.counts, n, now)
  {
    hide Weight;
  }

  lemma Grants(quota: nat -> Quota, horizon: nat, k: nat, s: Cell, n: nat, now: nat)
    requires QuotasFit(quota, horizon) && now < horizon && Valid(quota, k, s, now) && 0 < n <= s.q.limit
    ensures var (d, s') := Acquire(s, n, now);
            && Valid(quota, k, s', now) && (Native(s, now) ==> Native(s', now)) && s'.q == s.q
            && (d == Allow <==> FitsAt(s.q, s.counts, n, now))
            && forall t: nat :: now <= t ==>
              Load(s', t) == Load(s, t) + if d == Allow then Added(s.q, CountedIn(s, now), n, t) else 0
  {
    FitsHere(quota, horizon, k);
    AcquireIs(quota, horizon, k, s, n, now);
    var r := Cell(s.q, Roll(s.q, s.counts, now).0);
    Rolls(quota, horizon, k, s, now, r);
    var (d, s') := Acquire(s, n, now);
    hide Weight, QuotasFit, Roll, Acquire, Added;
    if d == Allow {
      WindowNumber(s.q, Max(now, StartOf(s)));
      Boundaries(s.q, r.counts.window);
      SameFit(s, r, n, now);
      CountingKeeps(quota, k, r, n, now);
      assert s' == Cell(r.q, r.counts.(curr := r.counts.curr + n));
      forall t: nat | now <= t ensures Load(s', t) == Load(s, t) + Added(s.q, CountedIn(s, now), n, t) {
        Counted(r, n, t);
      }
    }
  }

  lemma TooMany(s: Cell, n: nat, now: nat)
    requires n > s.q.limit && s.q.period > 0
    ensures !FitsAt(s.q, s.counts, n, now)
  {
    hide Weight;
    MulMonotone(s.q.limit + 1, n, s.q.period);
    Distributes(s.q.limit, 1, s.q.period);
  }

  /** An admission is decided by the load and adds to it; a denial changes
      nothing. */
  lemma Charges(quota: nat -> Quota, horizon: nat, k: nat, s: Cell, n: nat, now: nat)
    requires QuotasFit(quota, horizon) && now < horizon && Valid(quota, k, s, now)
    ensures s.q.period > 0
    ensures var (d, s') := Acquire(s, n, now);
            && Valid(quota, k, s', now) && (Native(s, now) ==> Native(s', now)) && s'.q == s.q
            && (d == Allow <==> n == 0 || FitsAt(s.q, s.counts, n, now))
            && forall t: nat :: now <= t ==>
              Load(s', t) == Load(s, t) + if d == Allow then Added(s.q, CountedIn(s, now), n, t) else 0
  {
    FitsHere(quota, horizon, k);
    ValidQuota(quota, k, s, now);
    if 0 < n <= s.q.limit {
      Grants(quota, horizon, k, s, n, now);
    } else {
      hide Weight, QuotasFit, Roll;
      if n > s.q.limit { TooMany(s, n, now); }
    }
  }

  lemma Starts(quota: nat -> Quota, horizon: nat, k: nat, now: nat)
    requires QuotasFit(quota, horizon) && now < horizon && Create(quota, k, now).Some?
    ensures var s := Create(quota, k, now).value;
            && Valid(quota, k, s, now) && Native(s, now) && s.q == quota(k) && s.q.period > 0
            && s.counts == Counts(now / s.q.period, 0, 0)
            && forall t: nat :: Load(s, t) == 0
  {
    FitsHere(quota, horizon, k);
    WindowNumber(quota(k), now);
    MulMonotone(0, quota(k).limit, quota(k).period);
    hide QuotasFit, Share;
  }

  // ---------------------------------------------------------------- the order

  /** Units counted in a later window weigh no less. */
  lemma AddedLater(q: Quota, w: nat, v: nat, n: nat, t: nat)
    requires w <= v
    ensures Added(q, w, n, t) <= Added(q, v, n, t)
  {
    MulMonotone(w + 2, v + 2, q.period);
    MulMonotoneRight(n, Share(q.period, (w + 2) * q.period, t), Share(q.period, (v + 2) * q.period, t));
  }

  lemma StricterSimulates(quota: nat -> Quota, horizon: nat, k: nat, r: Cell, s: Cell, n: nat, now: nat)
    requires QuotasFit(quota, horizon) && now < horizon && Valid(quota, k, r, now) && Valid(quota, k, s, now)
    requires Native(s, now) && Stricter(r, s, now)
    ensures var (d, r') := Acquire(r, n, now);
            if d == Allow then Acquire(s, n, now).0 == Allow && Stricter(r', Acquire(s, n, now).1, now)
            else Stricter(r', s, now)
  {
    Charges(quota, horizon, k, r, n, now);
    Charges(quota, horizon, k, s, n, now);
    FloorMonotone(now, Max(now, StartOf(r)), r.q.period);
    var w, v := CountedIn(s, now), CountedIn(r, now);
    hide QuotasFit, Acquire, Valid, Weight, Added, StartOf;
    forall t: nat ensures Added(s.q, w, n, t) <= Added(s.q, v, n, t) {
      AddedLater(s.q, w, v, n, t);
    }
    assert Load(r, now) >= Load(s, now);
  }

  lemma CeilMonotone(a: nat, b: nat, d: nat)
    requires d > 0 && a <= b
    ensures CeilDiv(a, d) <= CeilDiv(b, d)
  {
    FloorMonotone(a + d - 1, b + d - 1, d);
  }

  /** Loads decide debts. */
  lemma Compares(quota: nat -> Quota, horizon: nat, k: nat, r: Cell, s: Cell, now: nat)
    requires QuotasFit(quota, horizon) && now < horizon && Valid(quota, k, r, now) && Valid(quota, k, s, now)
    ensures Stricter(r, s, now) && DebtOf(s, now).Some? ==>
              && DebtOf(r, now).Some?
              && DebtOf(r, now).value.spent >= DebtOf(s, now).value.spent
              && DebtOf(r, now).value.until >= DebtOf(s, now).value.until
    ensures DebtOf(s, now).None? ==> Stricter(r, s, now)
    ensures (forall t: nat :: now <= t ==> Load(r, t) == Load(s, t)) ==> DebtOf(r, now) == DebtOf(s, now)
  {
    Owes(quota, horizon, k, r, now);
    Owes(quota, horizon, k, s, now);
    ValidQuota(quota, k, s, now);
    ValidQuota(quota, k, r, now);
    hide QuotasFit, DebtOf, Valid, Load, End, CeilDiv;
    forall t: nat | now <= t
      ensures Load(s, t) == 0 <==> t >= End(s)
      ensures Load(r, t) == 0 <==> t >= End(r)
    {
      ZeroIff(s, t);
      ZeroIff(r, t);
    }
    assert Load(s, now) > 0 ==> Load(s, End(s)) == 0;
    assert Load(r, now) > 0 ==> Load(r, End(r)) == 0;
    if Load(s, now) <= Load(r, now) { CeilMonotone(Load(s, now), Load(r, now), s.q.period); }
  }

  lemma DebtDecays(quota: nat -> Quota, horizon: nat, k: nat, s: Cell, now: nat, t: nat)
    requires QuotasFit(quota, horizon) && now <= t < horizon && Valid(quota, k, s, now)
    ensures match DebtOf(s, now)
            case None => DebtOf(s, t).None?
            case Some(d) =>
              && 0 < d.spent <= U32_MAX && now < d.until <= LAST
              && (DebtOf(s, t).None? <==> t >= d.until)
              && (DebtOf(s, t).Some? ==> DebtOf(s, t).value.spent <= d.spent && DebtOf(s, t).value.until == d.until)
  {
    hide QuotasFit, DebtOf, Valid, Load, End, CeilDiv;
    Owes(quota, horizon, k, s, now);
    ValidLater(quota, horizon, k, s, now, t);
    Owes(quota, horizon, k, s, t);
    ZeroIff(s, t);
    CeilMonotone(Load(s, t), Load(s, now), s.q.period);
  }

  lemma FadedPrev(s: Cell, t: nat)
    requires t >= (s.counts.window + 1) * s.q.period
    ensures Load(s, t) == Added(s.q, s.counts.window, s.counts.curr, t)
  {
    assert Share(s.q.period, (s.counts.window + 1) * s.q.period, t) == 0;
  }

  /** A whole charge in this window outweighs anything that weighs no more now
      and was counted no later. */
  lemma Outweighs(s: Cell, owed: nat, now: nat, t: nat)
    requires s.q.period > 0 && s.counts.window == now / s.q.period && now <= t && Load(s, now) <= owed * s.q.period
    ensures Added(s.q, s.counts.window, owed, t) >= Load(s, t)
  {
    WindowNumber(s.q, now);
    Boundaries(s.q, s.counts.window);
    if t <= (s.counts.window + 1) * s.q.period {
      WeighsWhole(s.q, s.counts.window, owed, t);
      WeightFalls(s.q, s.counts, now, t);
      hide Weight, Added;
    } else {
      CurrWeighs(s, now);
      MulCancel(s.counts.curr, owed, s.q.period);
      FadedPrev(s, t);
      MulMonotone(s.counts.curr, owed, Share(s.q.period, (s.counts.window + 2) * s.q.period, t));
      hide Weight, Share;
    }
  }

  lemma NativeStart(s: Cell, now: nat)
    requires s.q.period > 0 && Native(s, now)
    ensures CountedIn(s, now) == now / s.q.period
  {
  }

  lemma FreshFits(s: Cell, n: nat, now: nat)
    requires Load(s, now) == 0 && n <= s.q.limit
    ensures FitsAt(s.q, s.counts, n, now)
  {
    hide Weight;
    MulMonotone(n, s.q.limit, s.q.period);
  }

  /** Charging a fresh state with what was owed, now, is never looser than what
      owed it. */
  lemma ResumeIsStricter(quota: nat -> Quota, horizon: nat, k: nat, s: Cell, c: Debt, now: nat)
    requires QuotasFit(quota, horizon) && now < horizon && Valid(quota, k, s, now) && Native(s, now)
             && DebtOf(s, now).Some?
    requires Create(quota, k, now).Some? && c.spent >= DebtOf(s, now).value.spent
             && c.until >= DebtOf(s, now).value.until
    ensures Stricter(Restore(Create(quota, k, now).value, c, now), s, now)
  {
    Starts(quota, horizon, k, now);
    ValidQuota(quota, k, s, now);
    var f := Create(quota, k, now).value;
    var owed := Min(c.spent, f.q.limit);
    Owes(quota, horizon, k, s, now);
    CeilIff(Load(s, now), s.q.period, owed);
    FreshFits(f, owed, now);
    Charges(quota, horizon, k, f, owed, now);
    NativeStart(f, now);
    var r, rolled := Restore(f, c, now), Cell(s.q, Roll(s.q, s.counts, now).0);
    Rolls(quota, horizon, k, s, now, rolled);
    hide QuotasFit, DebtOf, Acquire, Create, Weight, Valid, End, Roll, CeilDiv, Added;
    forall t: nat | now <= t ensures Load(r, t) >= Load(s, t) {
      Outweighs(rolled, owed, now, t);
    }
  }

  /** A counter whose weight is that of whole units has room for the rest. */
  lemma WholeUnits(s: Cell, units: nat, n: nat, now: nat)
    requires s.q.period > 0 && Load(s, now) == units * s.q.period
    ensures FitsAt(s.q, s.counts, n, now) <==> units + n <= s.q.limit
    ensures CeilDiv(Load(s, now), s.q.period) == units
  {
    Distributes(units, n, s.q.period);
    if units + n <= s.q.limit {
      MulMonotone(units + n, s.q.limit, s.q.period);
    } else {
      MulMonotone(s.q.limit + 1, units + n, s.q.period);
      Distributes(s.q.limit, 1, s.q.period);
    }
    CeilIff(units * s.q.period, s.q.period, units);
    if units > 0 {
      CeilIff(units * s.q.period, s.q.period, units - 1);
      Distributes(units - 1, 1, s.q.period);
    }
    hide Weight;
  }

  /** Units granted now weigh their whole count now. */
  lemma GrantWeighs(quota: nat -> Quota, horizon: nat, k: nat, s: Cell, units: nat, n: nat, now: nat)
    requires QuotasFit(quota, horizon) && now < horizon && Valid(quota, k, s, now) && Native(s, now)
    requires s.q.period > 0 && Load(s, now) == units * s.q.period
    ensures var (d, s') := Acquire(s, n, now);
            && (d == Allow <==> n == 0 || units + n <= s.q.limit)
            && Valid(quota, k, s', now) && Native(s', now) && s'.q == s.q
            && Load(s', now) == (units + if d == Allow then n else 0) * s.q.period
  {
    hide QuotasFit, Weight, Valid, Acquire, FitsAt, Added;
    Charges(quota, horizon, k, s, n, now);
    WholeUnits(s, units, n, now);
    NativeStart(s, now);
    WindowNumber(s.q, now);
    Boundaries(s.q, CountedIn(s, now));
    WeighsWhole(s.q, CountedIn(s, now), n, now);
    Distributes(units, n, s.q.period);
  }

  /** A fresh state charged with a debt owes exactly its units, up to the limit, and
      is granted exactly what those leave. */
  lemma ChargedOwes(quota: nat -> Quota, horizon: nat, k: nat, d: Debt, n: nat, now: nat)
    requires QuotasFit(quota, horizon) && now < horizon && Create(quota, k, now).Some?
    requires d.spent > 0 ==> d.until > now
    ensures var (decision, s) := Acquire(Restore(Create(quota, k, now).value, d, now), n, now);
            var units := Min(d.spent, quota(k).limit);
            && (decision == Allow <==> n == 0 || units + n <= quota(k).limit)
            && UnitsOf(DebtOf(s, now)) == units + if decision == Allow then n else 0
  {
    hide QuotasFit, DebtOf, Acquire, Create, Load, Valid, End, Native, CeilDiv;
    Starts(quota, horizon, k, now);
    var f, units := Create(quota, k, now).value, Min(d.spent, quota(k).limit);
    assert Load(f, now) == 0 * f.q.period;
    GrantWeighs(quota, horizon, k, f, 0, units, now);
    var r := Restore(f, d, now);
    GrantWeighs(quota, horizon, k, r, units, n, now);
    var (decision, s) := Acquire(r, n, now);
    WholeUnits(s, units + if decision == Allow then n else 0, 0, now);
    Owes(quota, horizon, k, s, now);
  }

  lemma MulBelow(w: nat, v: nat, p: nat)
    requires w * p <= v * p && p > 0
    ensures w <= v
  {
    MulCancel(w, v, p);
  }

  /** One window ahead with nothing counted there: the charge is the same. */
  lemma AheadAlone(s: Cell, r: Cell, owed: nat, now: nat)
    requires s.q.period > 0 && r == Cell(s.q, Counts(now / s.q.period, 0, owed))
    requires s.counts.window == now / s.q.period + 1 && s.counts.curr == 0 && owed == CeilDiv(Load(s, now), s.q.period)
    ensures Stricter(r, s, now)
  {
    WindowNumber(s.q, now);
    Boundaries(s.q, now / s.q.period);
    Boundaries(s.q, s.counts.window);
    var end := (now / s.q.period + 2) * s.q.period;
    assert Share(s.q.period, end, now) == s.q.period;
    assert Load(s, now) == s.counts.prev * s.q.period;
    CeilIff(s.counts.prev * s.q.period, s.q.period, s.counts.prev);
    CeilIff(s.counts.prev * s.q.period, s.q.period, owed);
    MulCancel(s.counts.prev, owed, s.q.period);
    hide Share, CeilDiv;
  }

  lemma LooserIsNotStricter(r: Cell, s: Cell, now: nat)
    ensures Load(r, now) < Load(s, now) ==> !Stricter(r, s, now)
  {
    hide Load;
  }

  lemma StricterLasts(r: Cell, s: Cell, now: nat, t: nat)
    requires now <= t
    ensures Stricter(r, s, now) ==> Stricter(r, s, t)
  {
    hide Load;
  }

  /** Otherwise it still weighs when the charge has faded. */
  lemma AheadOutlasts(s: Cell, r: Cell, owed: nat, now: nat)
    requires s.q.period > 0 && r == Cell(s.q, Counts(now / s.q.period, 0, owed)) && owed > 0
    requires s.counts.window > now / s.q.period && (s.counts.prev > 0 || s.counts.curr > 0)
    requires s.counts.window == now / s.q.period + 1 ==> s.counts.curr > 0
    ensures !Stricter(r, s, now)
  {
    var w, v := now / s.q.period, s.counts.window;
    WindowNumber(s.q, now);
    Boundaries(s.q, w);
    var t := (w + 2) * s.q.period;
    MulMonotone(w + 3, if s.counts.curr > 0 then v + 2 else v + 1, s.q.period);
    assert (w + 3) * s.q.period == t + s.q.period;
    ZeroIff(r, t);
    ZeroIff(s, t);
    LooserIsNotStricter(r, s, t);
    StricterLasts(r, s, now, t);
    hide Weight, Load;
  }

  lemma NothingWeighs(q: Quota, t: nat)
    ensures forall w: nat :: Load(Cell(q, Counts(w, 0, 0)), t) == 0
  {
    hide Share;
  }

  /** The counts after a fresh key's first admission. */
  lemma FirstIs(f: Cell, n: nat, now: nat)
    requires Usable(f.q) && f.counts == Counts(now / f.q.period, 0, 0) && 0 < n <= f.q.limit && now <= U64_MAX
    ensures Acquire(f, n, now) == (Allow, Cell(f.q, Counts(now / f.q.period, 0, n)))
  {
    WindowNumber(f.q, now);
    RollCases(f.q, f.counts, now);
    NothingWeighs(f.q, now);
    FreshFits(f, n, now);
    AdmittedIff(f.q, f.counts, n, now);
    hide Weight, EarliestFit, SlidingCounter.Fits, Roll;
  }

  /** For a counter that was read ahead of the clock the charge falls short. Exactly
      what was owed, charged now, is no looser if and only if the counter is not
      ahead, or is one window ahead with nothing counted there. */
  lemma ResumeIsStricterIff(quota: nat -> Quota, horizon: nat, k: nat, s: Cell, now: nat)
    requires QuotasFit(quota, horizon) && now < horizon && Valid(quota, k, s, now) && DebtOf(s, now).Some?
    requires Create(quota, k, now).Some?
    ensures s.q.period > 0
    ensures Stricter(Restore(Create(quota, k, now).value, DebtOf(s, now).value, now), s, now) <==>
              Native(s, now) || (s.counts.window == now / s.q.period + 1 && s.counts.curr == 0)
  {
    ValidQuota(quota, k, s, now);
    Owes(quota, horizon, k, s, now);
    if Native(s, now) {
      ResumeIsStricter(quota, horizon, k, s, DebtOf(s, now).value, now);
    } else {
      Starts(quota, horizon, k, now);
      FitsHere(quota, horizon, k);
      var f, owed := Create(quota, k, now).value, CeilDiv(Load(s, now), s.q.period);
      FirstIs(f, owed, now);
      var r := Restore(f, DebtOf(s, now).value, now);
      WindowNumber(s.q, now);
      MulBelow(now / s.q.period, s.counts.window, s.q.period);
      hide QuotasFit, DebtOf, Acquire, Create, Weight, Valid, CeilDiv, End;
      if s.counts.window == now / s.q.period + 1 && s.counts.curr == 0 {
        AheadAlone(s, r, owed, now);
      } else {
        AheadOutlasts(s, r, owed, now);
      }
    }
  }

  // ----------------------------------------------------------- reading ahead

  lemma FirstCount(f: Cell, n: nat, now: nat)
    requires Open(f.q) && f.q.limit <= U32_MAX && now <= U64_MAX && f.counts == Counts(now / f.q.period, 0, 0)
    ensures var s := Acquire(f, n, now).1;
            s.q == f.q && s.counts.window == now / f.q.period && s.counts.prev == 0
  {
    WindowNumber(f.q, now);
    hide EarliestFit, SlidingCounter.Fits;
  }

  lemma LookIs(s: Cell, b: nat)
    requires Open(s.q) && b <= U64_MAX
    ensures Look(s, b) == Cell(s.q, Roll(s.q, s.counts, b).0)
  {
    hide Roll, Remaining, FullIn;
  }

  lemma RolledAhead(s: Cell, now: nat, b: nat)
    requires Open(s.q) && NANOS_PER_MILLI <= s.q.period && now < b <= now + NANOS_PER_MILLI && b <= U64_MAX
    requires s.counts.window == now / s.q.period && s.counts.prev == 0
    ensures var r := Look(s, b);
            && r.q == s.q && StartOf(r) <= now + NANOS_PER_MILLI
            && (r.counts == s.counts || r.counts == Counts(s.counts.window + 1, s.counts.curr, 0))
            && forall t: nat :: Load(r, t) == Load(s, t)
  {
    WindowNumber(s.q, now);
    RollCases(s.q, s.counts, b);
    Boundaries(s.q, s.counts.window);
    Boundaries(s.q, s.counts.window + 1);
    LookIs(s, b);
    hide Share, Look, Roll;
  }

  /** Rolled early into the next window, a first count weighs the same at every
      instant. */
  lemma LooksAhead(quota: nat -> Quota, horizon: nat, k: nat, n: nat, now: nat, b: nat)
    requires QuotasFit(quota, horizon) && Create(quota, k, now).Some? && now < b <= now + NANOS_PER_MILLI && b < horizon
    requires quota(k).period >= NANOS_PER_MILLI
    ensures var s := Acquire(Create(quota, k, now).value, n, now).1;
            && Valid(quota, k, s, now) && Valid(quota, k, Look(s, b), now) && Look(s, b).q == s.q
            && forall t: nat :: Load(Look(s, b), t) == Load(s, t)
  {
    Starts(quota, horizon, k, now);
    FitsHere(quota, horizon, k);
    var f := Create(quota, k, now).value;
    Charges(quota, horizon, k, f, n, now);
    var s := Acquire(f, n, now).1;
    FirstCount(f, n, now);
    RolledAhead(s, now, b);
  }

  /** A read is at most one window on exactly before the second next one. */
  lemma AheadIff(q: Quota, now: nat, b: nat)
    requires q.period > 0
    ensures b / q.period <= now / q.period + 1 <==> b < now / q.period * q.period + 2 * q.period
  {
    FloorIff(b, q.period, now / q.period + 2);
    Boundaries(q, now / q.period);
  }

  /** Rolled at most once, it weighs the same. */
  lemma RolledOnce(s: Cell, r: Cell, now: nat)
    requires r.q == s.q && s.counts.prev == 0
    requires r.counts == s.counts || r.counts == Counts(s.counts.window + 1, s.counts.curr, 0)
    ensures Load(r, now) == Load(s, now)
  {
    Boundaries(s.q, s.counts.window);
    Boundaries(s.q, s.counts.window + 1);
    hide Share;
  }

  /** Rolled twice, it is gone. */
  lemma RolledAway(s: Cell, r: Cell, n: nat, now: nat, b: nat)
    requires Usable(s.q) && r.q == s.q && r.counts.prev == 0 && r.counts.curr == 0
    requires s.counts == Counts(now / s.q.period, 0, n) && n > 0 && now <= b <= U64_MAX
    requires r.counts.window * r.q.period <= U64_MAX
    ensures Load(r, now) == 0 < Load(s, now) && Load(r, b) == 0 && Acquire(r, r.q.limit, now).0 == Allow
  {
    WindowNumber(s.q, now);
    Boundaries(s.q, s.counts.window);
    CurrWeighs(s, now);
    MulMonotone(1, n, s.q.period);
    NothingWeighs(r.q, now);
    NothingWeighs(r.q, b);
    assert r == Cell(r.q, Counts(r.counts.window, 0, 0));
    FreshFits(r, r.q.limit, now);
    AdmittedIff(r.q, r.counts, r.q.limit, now);
    hide Weight, EarliestFit, SlidingCounter.Fits, Roll, Share;
  }

  /** Read ahead of time, a first count still weighs what it did exactly if the
      read is at most one window on; otherwise it is dropped at once, and the
      whole limit is granted again in the same instant. */
  lemma ReadingAheadIsHarmlessIff(f: Cell, n: nat, now: nat, b: nat)
    requires Usable(f.q) && f.counts == Counts(now / f.q.period, 0, 0) && 0 < n <= f.q.limit && now <= b <= U64_MAX
    ensures var s := Acquire(f, n, now).1;
            && Acquire(f, n, now).0 == Allow
            && (Load(Look(s, b), now) == Load(s, now) <==> b / f.q.period <= now / f.q.period + 1)
            && Load(Look(s, b), now) <= Load(s, now)
            && (b / f.q.period > now / f.q.period + 1 ==>
                  Look(s, b).q == f.q && Load(Look(s, b), b) == 0 && Acquire(Look(s, b), f.q.limit, now).0 == Allow)
  {
    var q, w := f.q, now / f.q.period;
    WindowNumber(q, now);
    WindowNumber(q, b);
    Boundaries(q, w);
    FirstIs(f, n, now);
    var s := Acquire(f, n, now).1;
    LookIs(s, b);
    AheadIff(q, now, b);
    RollCases(q, s.counts, b);
    hide Acquire, Look, Roll, Load;
    if b / q.period <= w + 1 {
      RolledOnce(s, Look(s, b), now);
    } else {
      RolledAway(s, Look(s, b), n, now, b);
    }
  }

  /** What the key may be granted is unchanged by the read `first_hint` makes
      after a first grant. */
  ghost predicate Harmless(q: Quota, n: nat, now: nat)
    requires q.period > 0
  {
    var s := Acquire(Cell(q, Counts(now / q.period, 0, 0)), n, now).1;
    Load(Look(s, (Millis(now) + 1) * NANOS_PER_MILLI), now) == Load(s, now)
  }

  /** Just before the last window that ends with a whole number of milliseconds. */
  function BadReading(q: Quota): nat
    requires 0 < q.period < NANOS_PER_MILLI
  {
    q.period * NANOS_PER_MILLI - q.period - 1
  }

  lemma BadReadingIsBad(q: Quota)
    requires 0 < q.period < NANOS_PER_MILLI
    ensures var (now, b) := (BadReading(q), q.period * NANOS_PER_MILLI);
            && (Millis(now) + 1) * NANOS_PER_MILLI == b && now < b <= now + NANOS_PER_MILLI
            && b <= NANOS_PER_MILLI * NANOS_PER_MILLI && b / q.period > now / q.period + 1
  {
    var now, b := BadReading(q), q.period * NANOS_PER_MILLI;
    FloorIff(b, q.period, NANOS_PER_MILLI);
    FloorIff(now, q.period, NANOS_PER_MILLI - 1);
    CeilMillisAfter(0, now);
  }

  lemma HarmlessIff(q: Quota, n: nat, now: nat)
    requires Usable(q) && 0 < n <= q.limit && now + NANOS_PER_MILLI <= U64_MAX
    ensures Harmless(q, n, now) <==> (Millis(now) + 1) * NANOS_PER_MILLI / q.period <= now / q.period + 1
  {
    hide Acquire, Look, Load;
    CeilMillisAfter(0, now);
    ReadingAheadIsHarmlessIff(Cell(q, Counts(now / q.period, 0, 0)), n, now, (Millis(now) + 1) * NANOS_PER_MILLI);
  }

  /** A quota is harmless at every reading exactly if its period is at least a
      millisecond: any other forgets a request made just before a whole window
      that ends on the millisecond. */
  lemma AlwaysHarmlessIff(q: Quota)
    requires Usable(q)
    ensures (forall n: nat, now: nat ::
               0 < n <= q.limit && now + NANOS_PER_MILLI <= U64_MAX ==> Harmless(q, n, now))
            <==> q.period >= NANOS_PER_MILLI
  {
    hide Harmless, BadReading;
    if q.period >= NANOS_PER_MILLI {
      forall n: nat, now: nat | 0 < n <= q.limit && now + NANOS_PER_MILLI <= U64_MAX
        ensures Harmless(q, n, now)
      {
        CeilMillisAfter(0, now);
        HarmlessIff(q, n, now);
        WindowNumber(q, now);
        AheadIff(q, now, (Millis(now) + 1) * NANOS_PER_MILLI);
      }
    } else {
      BadReadingIsBad(q);
      HarmlessIff(q, 1, BadReading(q));
    }
  }

  // -------------------------------------------------------------------- laws

  lemma NativeLater(s: Cell, now: nat, t: nat)
    requires now <= t
    ensures Native(s, now) ==> Native(s, t)
  {
  }

  /** A key has a state exactly if its quota admits something. */
  lemma CreateIff(quota: nat -> Quota, k: nat, now: nat)
    ensures Create(quota, k, now).None? <==> quota(k).limit == 0 || quota(k).period == 0
  {
  }

  lemma BasicLaws(quota: nat -> Quota, horizon: nat)
    requires QuotasFit(quota, horizon)
    ensures var o := Ops(quota, horizon);
            FreshLaw(o) && TimeLaw(o) && KeepLaw(o)
  {
    hide QuotasFit, Create, Acquire, DebtOf, Look, Valid, Native, Stricter, Load;
    var o := Ops(quota, horizon);
    forall k: nat, now: nat | now < horizon && o.create(k, now).Some?
      ensures var s := o.create(k, now).value; o.valid(k, s, now) && o.native(k, s, now) && o.debt(s, now).None?
    {
      Starts(quota, horizon, k, now);
      Owes(quota, horizon, k, Create(quota, k, now).value, now);
    }
    forall k: nat, s: Cell, now: nat | o.valid(k, s, now) ensures o.create(k, now).Some? {
      ValidQuota(quota, k, s, now);
      CreateIff(quota, k, now);
    }
    forall k: nat, s: Cell, now: nat, t: nat | o.valid(k, s, now) && now <= t
      ensures o.valid(k, s, t) && (o.native(k, s, now) ==> o.native(k, s, t))
    {
      ValidLater(quota, horizon, k, s, now, t);
      NativeLater(s, now, t);
    }
    forall k: nat, s: Cell, n: nat, now: nat | o.valid(k, s, now) && now < horizon
      ensures o.valid(k, o.acquire(s, n, now).1, now)
      ensures o.native(k, s, now) ==> o.native(k, o.acquire(s, n, now).1, now)
    {
      Charges(quota, horizon, k, s, n, now);
    }
    forall k: nat, s: Cell, d: Debt, now: nat | o.valid(k, s, now) && now < horizon
      ensures o.valid(k, o.restore(s, d, now), now)
    {
      Charges(quota, horizon, k, s, Min(d.spent, s.q.limit), now);
    }
    forall k: nat, s: Cell, now: nat | o.valid(k, s, now) && now < horizon
      ensures o.valid(k, o.look(s, now), now)
    {
      Looks(quota, horizon, k, s, now);
    }
  }

  lemma LookKeeps(quota: nat -> Quota, horizon: nat, k: nat, s: Cell, now: nat, t: nat)
    requires QuotasFit(quota, horizon) && Valid(quota, k, s, now) && now <= t < horizon
    ensures Valid(quota, k, Look(s, now), now) && DebtOf(Look(s, now), t) == DebtOf(s, t)
  {
    hide QuotasFit, DebtOf, Look, Valid, Load;
    Looks(quota, horizon, k, s, now);
    ValidLater(quota, horizon, k, s, now, t);
    ValidLater(quota, horizon, k, Look(s, now), now, t);
    Compares(quota, horizon, k, Look(s, now), s, t);
  }

  lemma LookLaws(quota: nat -> Quota, horizon: nat)
    requires QuotasFit(quota, horizon)
    ensures LookLaw(Ops(quota, horizon))
  {
    hide QuotasFit, Create, Acquire, DebtOf, Look, Valid, Native, Stricter, Load;
    var o := Ops(quota, horizon);
    forall k: nat, s: Cell, now: nat, t: nat | o.valid(k, s, now) && now <= t < horizon
      ensures o.debt(o.look(s, now), t) == o.debt(s, t)
    {
      LookKeeps(quota, horizon, k, s, now, t);
    }
  }

  lemma DebtLaws(quota: nat -> Quota, horizon: nat)
    requires QuotasFit(quota, horizon)
    ensures DebtLaw(Ops(quota, horizon)) && NativeLaw(Ops(quota, horizon))
  {
    hide QuotasFit, Create, Acquire, DebtOf, Restore, Look, Valid, Native, Stricter;
    forall k: nat, s: Cell, now: nat, t: nat | Valid(quota, k, s, now) && now <= t < horizon
      ensures match DebtOf(s, now)
              case None => DebtOf(s, t).None?
              case Some(d) =>
                && 0 < d.spent <= U32_MAX && now < d.until <= LAST
                && (DebtOf(s, t).None? <==> t >= d.until)
                && (DebtOf(s, t).Some? ==> DebtOf(s, t).value.spent <= d.spent && DebtOf(s, t).value.until == d.until)
    {
      DebtDecays(quota, horizon, k, s, now, t);
    }
  }

  lemma LookStaysStricter(quota: nat -> Quota, horizon: nat, k: nat, r: Cell, s: Cell, now: nat)
    requires QuotasFit(quota, horizon) && Valid(quota, k, r, now) && Stricter(r, s, now) && now < horizon
    ensures Stricter(Look(r, now), s, now)
  {
    Looks(quota, horizon, k, r, now);
    hide Load, Look, Valid, QuotasFit;
  }

  lemma OrderLaws(quota: nat -> Quota, horizon: nat)
    requires QuotasFit(quota, horizon)
    ensures StricterLaw(Ops(quota, horizon)) && ResumeLaw(Ops(quota, horizon))
  {
    hide QuotasFit, Create, Acquire, DebtOf, Restore, Look, Valid, Native, Stricter;
    var o := Ops(quota, horizon);
    forall k: nat, r: Cell, s: Cell, now: nat, n: nat
      | Valid(quota, k, r, now) && Valid(quota, k, s, now) && Native(s, now) && Stricter(r, s, now) && now < horizon
      ensures var (d, r') := Acquire(r, n, now);
              if d == Allow then Acquire(s, n, now).0 == Allow && Stricter(r', Acquire(s, n, now).1, now)
              else Stricter(r', s, now)
    {
      StricterSimulates(quota, horizon, k, r, s, n, now);
    }
    forall r: Cell, s: Cell, now: nat,
      t: nat {:trigger Stricter(r, s, now), Stricter(r, s, t)} | Stricter(r, s, now) && now <= t
      ensures Stricter(r, s, t)
    {
      StricterLasts(r, s, now, t);
    }
    forall k: nat, r: Cell, s: Cell, now: nat {:trigger Valid(quota, k, r, now), Stricter(r, s, now), Look(r, now)}
      | Valid(quota, k, r, now) && Stricter(r, s, now) && now < horizon
      ensures Stricter(Look(r, now), s, now)
    {
      LookStaysStricter(quota, horizon, k, r, s, now);
    }
    forall k: nat, r: Cell, s: Cell, now: nat
      | Valid(quota, k, r, now) && Valid(quota, k, s, now) && now < horizon
      ensures Stricter(r, s, now) && DebtOf(s, now).Some? ==>
                && DebtOf(r, now).Some?
                && DebtOf(r, now).value.spent >= DebtOf(s, now).value.spent
                && DebtOf(r, now).value.until >= DebtOf(s, now).value.until
      ensures DebtOf(s, now).None? ==> Stricter(r, s, now)
    {
      Compares(quota, horizon, k, r, s, now);
    }
    forall k: nat, s: Cell, now: nat, c: Debt
      | Valid(quota, k, s, now) && Native(s, now) && now < horizon && DebtOf(s, now).Some?
        && Create(quota, k, now).Some?
        && c.spent >= DebtOf(s, now).value.spent && c.until >= DebtOf(s, now).value.until
      ensures Stricter(Restore(Create(quota, k, now).value, c, now), s, now)
    {
      ResumeIsStricter(quota, horizon, k, s, c, now);
    }
  }

  /** The sliding counter obeys the laws of restoring, whatever the period. */
  lemma CounterIsOrderly(quota: nat -> Quota, horizon: nat)
    requires QuotasFit(quota, horizon)
    ensures Orderly(Ops(quota, horizon))
  {
    BasicLaws(quota, horizon);
    LookLaws(quota, horizon);
    DebtLaws(quota, horizon);
    OrderLaws(quota, horizon);
  }

  lemma CreatedIsOpen(quota: nat -> Quota, k: nat, now: nat)
    ensures Create(quota, k, now).Some? <==> Open(quota(k))
  {
  }

  lemma FirstOwes(quota: nat -> Quota, horizon: nat, k: nat, f: Cell, n: nat, now: nat)
    requires QuotasFit(quota, horizon) && now < horizon && Valid(quota, k, f, now) && Load(f, now) == 0
    ensures var (d, s) := Acquire(f, n, now);
            Valid(quota, k, s, now) && (DebtOf(s, now).Some? <==> n > 0 && d == Allow)
  {
    Charges(quota, horizon, k, f, n, now);
    Owes(quota, horizon, k, Acquire(f, n, now).1, now);
    ValidQuota(quota, k, f, now);
    WindowNumber(f.q, Max(now, StartOf(f)));
    Boundaries(f.q, CountedIn(f, now));
    WeighsWhole(f.q, CountedIn(f, now), n, now);
    if n > 0 { MulMonotone(1, n, f.q.period); }
    hide QuotasFit, Acquire, DebtOf, Valid, Weight, Added, End, CeilDiv;
  }

  lemma FirstLooksAhead(quota: nat -> Quota, horizon: nat, k: nat, n: nat, now: nat, b: nat)
    requires QuotasFit(quota, horizon) && Create(quota, k, now).Some? && now < b <= now + NANOS_PER_MILLI && b < horizon
    requires quota(k).period >= NANOS_PER_MILLI
    ensures var s := Acquire(Create(quota, k, now).value, n, now).1;
            && Valid(quota, k, Look(s, b), now)
            && DebtOf(Look(s, b), now) == DebtOf(s, now)
            && (forall r: Cell :: Stricter(s, r, now) ==> Stricter(Look(s, b), r, now))
  {
    hide QuotasFit, Create, Acquire, DebtOf, Look, Valid, Load;
    LooksAhead(quota, horizon, k, n, now, b);
    var s := Acquire(Create(quota, k, now).value, n, now).1;
    Compares(quota, horizon, k, Look(s, b), s, now);
  }

  lemma FirstLaws(quota: nat -> Quota, horizon: nat)
    requires QuotasFit(quota, horizon) && PeriodsOutlast(quota)
    ensures FirstLaw(Ops(quota, horizon))
  {
    hide QuotasFit, Create, Acquire, DebtOf, Look, Valid, Native, Stricter, Load;
    var o := Ops(quota, horizon);
    forall k: nat, now: nat, n: nat | o.create(k, now).Some? && now < horizon
      ensures var (d, s) := o.acquire(o.create(k, now).value, n, now);
              o.debt(s, now).Some? <==> n > 0 && d == Allow
      ensures o.valid(k, o.acquire(o.create(k, now).value, n, now).1, now)
    {
      Starts(quota, horizon, k, now);
      var f := Create(quota, k, now).value;
      FitsHere(quota, horizon, k);
      FirstOwes(quota, horizon, k, f, n, now);
    }
    forall k: nat, now: nat, n: nat, b: nat {:trigger o.look(o.acquire(o.create(k, now).value, n, now).1, b)}
      | o.create(k, now).Some? && now < b <= now + NANOS_PER_MILLI && b < horizon
      ensures var s := o.acquire(o.create(k, now).value, n, now).1;
              && o.valid(k, o.look(s, b), now)
              && o.debt(o.look(s, b), now) == o.debt(s, now)
              && (forall r: Cell :: o.valid(k, r, now) && o.stricter(s, r, now) ==> o.stricter(o.look(s, b), r, now))
    {
      CreatedIsOpen(quota, k, now);
      FirstLooksAhead(quota, horizon, k, n, now, b);
    }
  }

  /** It obeys those of the store if every period outlasts a read ahead. */
  lemma CounterIsLawful(quota: nat -> Quota, horizon: nat)
    requires QuotasFit(quota, horizon) && PeriodsOutlast(quota)
    ensures Lawful(Ops(quota, horizon))
  {
    hide QuotasFit, PeriodsOutlast, Orderly, FirstLaw;
    CounterIsOrderly(quota, horizon);
    FirstLaws(quota, horizon);
  }

  /** A request just before the last window of a millisecond that holds one whole
      is forgotten. */
  lemma ShortPeriodBreaksFirstLaw(quota: nat -> Quota, horizon: nat, k: nat)
    requires QuotasFit(quota, horizon) && horizon > NANOS_PER_MILLI * NANOS_PER_MILLI
    requires Open(quota(k)) && quota(k).period < NANOS_PER_MILLI
    ensures !FirstLaw(Ops(quota, horizon))
  {
    FitsHere(quota, horizon, k);
    var now, b := BadReading(quota(k)), quota(k).period * NANOS_PER_MILLI;
    BadReadingIsBad(quota(k));
    Starts(quota, horizon, k, now);
    var o, f := Ops(quota, horizon), Create(quota, k, now).value;
    Charges(quota, horizon, k, f, 1, now);
    var s := Acquire(f, 1, now).1;
    ReadingAheadIsHarmlessIff(f, 1, now, b);
    hide QuotasFit, Create, Acquire, DebtOf, Look, Valid, Load, BadReading;
    assert o.stricter(s, s, now);
    LooserIsNotStricter(Look(s, b), s, now);
    if FirstLaw(o) { KeyLaws.LooksAhead(o, k, 1, now, b, s); }
  }

  /** And only then: it obeys them exactly if every period outlasts a read ahead,
      given a horizon of at least a quarter of an hour or so in which to fail. */
  lemma CounterIsLawfulIff(quota: nat -> Quota, horizon: nat)
    requires QuotasFit(quota, horizon) && horizon > NANOS_PER_MILLI * NANOS_PER_MILLI
    ensures Lawful(Ops(quota, horizon)) <==> PeriodsOutlast(quota)
  {
    hide QuotasFit, Orderly, FirstLaw;
    CounterIsOrderly(quota, horizon);
    if PeriodsOutlast(quota) {
      CounterIsLawful(quota, horizon);
    } else {
      var k: nat :| Open(quota(k)) && quota(k).period < NANOS_PER_MILLI;
      ShortPeriodBreaksFirstLaw(quota, horizon, k);
    }
  }
}
