/** The fixed window as a key's state (src/algo/mod.rs:224-241): it obeys the laws
    of eviction, with the trait's default `debt` and `restore`. */
module KeyWindow {
  import opened Units
  import opened Division
  import opened FixedWindow
  import opened KeyLaws

  datatype Cell = Cell(q: Quota, words: Words)

  function Create(quota: nat -> Quota, k: nat, now: nat): Option<Cell> {
    if DenyAll(quota(k)) then None else Some(Cell(quota(k), New(quota(k), now)))
  }

  function Acquire(s: Cell, n: nat, now: nat): (Decision, Cell) {
    var (d, words) := FixedWindow.Acquire(s.q, s.words, n, now);
    (d, Cell(s.q, words))
  }

  function DebtOf(s: Cell, now: nat): Option<Debt> {
    var (remaining, reset) := Peek(s.q, s.words, now);
    var spent := SatSub(s.q.limit, remaining);
    if spent > 0 then Some(Debt(spent, now + reset)) else None
  }

  /** The default `restore`: the whole count is charged now. */
  function Restore(s: Cell, d: Debt, now: nat): Cell {
    if d.until <= now || d.spent == 0 then s else Acquire(s, Min(d.spent, s.q.limit), now).1
  }

  /** Units counted in the window of `now`. */
  function Used(s: Cell, now: nat): nat {
    if s.words.latest == WindowOf(s.q, now) then CountOf(s.words.word) else 0
  }

  predicate Valid(quota: nat -> Quota, k: nat, s: Cell, now: nat) {
    && s.q == quota(k) && !DenyAll(s.q) && s.words.latest <= WindowOf(s.q, now)
    && IndexOf(s.words.word) == LowBits(s.words.latest) && CountOf(s.words.word) <= s.q.limit
  }

  predicate Stricter(r: Cell, s: Cell, now: nat) { r.q == s.q && Used(r, now) >= Used(s, now) }

  function Ops(quota: nat -> Quota, horizon: nat): KeyOps<Cell> {
    KeyOps(horizon,
           (k, now) => Create(quota, k, now),
           (s, n, now) => Acquire(s, n, now),
           (s, now) => DebtOf(s, now),
           (s, now) => DebtOf(s, now).None?,
           (s, now) => s,
           (s, d, now) => Restore(s, d, now),
           (k, s, now) => Valid(quota, k, s, now),
           (k, s, now) => true,
           (r, s, now) => Stricter(r, s, now))
  }

  /** No window that starts before the horizon ends past the last deadline. */
  ghost predicate QuotasFit(quota: nat -> Quota, horizon: nat) {
    forall k: nat :: quota(k).limit <= U32_MAX && horizon + quota(k).period <= LAST
  }

  // ----------------------------------------------------------------- windows

  /** A window ends where the next one starts. */
  lemma WindowEnds(q: Quota, now: nat, t: nat)
    requires q.period > 0 && now <= t
    ensures var w := WindowOf(q, now);
            && w <= WindowOf(q, t) && now < (w + 1) * q.period <= now + q.period
            && (WindowOf(q, t) == w <==> t < (w + 1) * q.period)
  {
    var w := WindowOf(q, now);
    FloorIff(now, q.period, w);
    FloorIff(now, q.period, w + 1);
    FloorIff(t, q.period, w);
    FloorIff(t, q.period, w + 1);
    assert (w + 1) * q.period == w * q.period + q.period;
  }

  lemma FitsHere(quota: nat -> Quota, horizon: nat, k: nat)
    requires QuotasFit(quota, horizon)
    ensures quota(k).limit <= U32_MAX && horizon + quota(k).period <= LAST
  {
  }

  lemma WindowSmall(q: Quota, now: nat)
    requires q.period > 0
    ensures WindowOf(q, now) <= now
  {
    FloorIff(now, q.period, now + 1);
    MulMonotone(1, q.period, now + 1);
  }

  /** What a key owes: its count in this window, until the window ends. */
  lemma Owes(quota: nat -> Quota, horizon: nat, k: nat, s: Cell, now: nat)
    requires QuotasFit(quota, horizon) && now < horizon && Valid(quota, k, s, now)
    ensures DebtOf(s, now) ==
              if Used(s, now) == 0 then None
              else Some(Debt(Used(s, now), (WindowOf(s.q, now) + 1) * s.q.period))
    ensures (WindowOf(s.q, now) + 1) * s.q.period <= LAST && Used(s, now) <= s.q.limit <= U32_MAX
    ensures now < (WindowOf(s.q, now) + 1) * s.q.period
  {
    FitsHere(quota, horizon, k);
    WindowEnds(s.q, now, now);
    WindowSmall(s.q, now);
    hide QuotasFit;
  }

  lemma UsedLater(quota: nat -> Quota, k: nat, s: Cell, now: nat, t: nat)
    requires Valid(quota, k, s, now) && now <= t
    ensures Valid(quota, k, s, t)
    ensures Used(s, t) == if t < (WindowOf(s.q, now) + 1) * s.q.period then Used(s, now) else 0
  {
    WindowEnds(s.q, now, t);
    hide WindowOf;
  }

  /** An admission adds its units to this window's count and nothing else. */
  lemma Charges(quota: nat -> Quota, horizon: nat, k: nat, s: Cell, n: nat, now: nat)
    requires QuotasFit(quota, horizon) && now < horizon && Valid(quota, k, s, now)
    ensures var (d, s') := Acquire(s, n, now);
            && Valid(quota, k, s', now)
            && (d == Allow <==> n == 0 || Used(s, now) + n <= s.q.limit)
            && Used(s', now) == Used(s, now) + (if d == Allow then n else 0)
  {
    FitsHere(quota, horizon, k);
    var w := WindowOf(s.q, now);
    if Used(s, now) + n <= s.q.limit { PackRoundTrip(LowBits(w), Used(s, now) + n); }
    hide QuotasFit, WindowOf, Pack, IndexOf, CountOf;
  }

  lemma Starts(quota: nat -> Quota, horizon: nat, k: nat, now: nat)
    requires QuotasFit(quota, horizon) && now < horizon && Create(quota, k, now).Some?
    ensures var s := Create(quota, k, now).value; Valid(quota, k, s, now) && Used(s, now) == 0
  {
    PackRoundTrip(LowBits(WindowOf(quota(k), now)), 0);
    FitsHere(quota, horizon, k);
    hide WindowOf, Pack, IndexOf, CountOf, QuotasFit;
  }

  lemma AcquireKeepsQuota(s: Cell, n: nat, now: nat)
    ensures Acquire(s, n, now).1.q == s.q
  {
    hide FixedWindow.Acquire;
  }

  /** Charging a fresh state with what was owed, now, is never looser than what
      owed it. */
  lemma ResumeIsStricter(quota: nat -> Quota, horizon: nat, k: nat, s: Cell, c: Debt, now: nat)
    requires QuotasFit(quota, horizon) && now < horizon && Valid(quota, k, s, now) && DebtOf(s, now).Some?
    requires Create(quota, k, now).Some? && c.spent >= DebtOf(s, now).value.spent
             && c.until >= DebtOf(s, now).value.until
    ensures Stricter(Restore(Create(quota, k, now).value, c, now), s, now)
  {
    hide QuotasFit, WindowOf, CountOf, IndexOf, DebtOf, Acquire, Create;
    Owes(quota, horizon, k, s, now);
    Starts(quota, horizon, k, now);
    var f := Create(quota, k, now).value;
    Charges(quota, horizon, k, f, Min(c.spent, f.q.limit), now);
    AcquireKeepsQuota(f, Min(c.spent, f.q.limit), now);
  }

  /** A key has a state exactly if its quota admits something. */
  lemma CreateIff(quota: nat -> Quota, k: nat, now: nat)
    ensures Create(quota, k, now).None? <==> quota(k).limit == 0 || quota(k).period == 0
  {
  }

  lemma ValidPeriod(quota: nat -> Quota, k: nat, s: Cell, now: nat)
    requires Valid(quota, k, s, now)
    ensures s.q.limit > 0 && s.q.period > 0 && s.q == quota(k)
  {
  }

  lemma CreateIs(quota: nat -> Quota, k: nat, now: nat)
    requires Create(quota, k, now).Some?
    ensures Create(quota, k, now).value.q == quota(k) && quota(k).limit > 0
  {
  }

  /** A fresh state charged with a debt owes exactly its units, up to the limit, and
      is granted exactly what those leave. */
  lemma ChargedOwes(quota: nat -> Quota, horizon: nat, k: nat, d: Debt, n: nat, now: nat)
    requires QuotasFit(quota, horizon) && now < horizon && Create(quota, k, now).Some?
    requires d.spent > 0 ==> d.until > now
    ensures var (decision, s) := Acquire(Restore(Create(quota, k, now).value, d, now), n, now);
            var units := Min(d.spent, quota(k).limit);
            && (decision == Allow <==> n == 0 || units + n <= quota(k).limit)
            && UnitsOf(DebtOf(s, now)) == units + if decision == Allow then n else 0
  {
    CreateIs(quota, k, now);
    hide QuotasFit, WindowOf, CountOf, IndexOf, DebtOf, Acquire, Create, Used, Valid;
    Starts(quota, horizon, k, now);
    var f := Create(quota, k, now).value;
    Charges(quota, horizon, k, f, Min(d.spent, f.q.limit), now);
    AcquireKeepsQuota(f, Min(d.spent, f.q.limit), now);
    var r := Restore(f, d, now);
    Charges(quota, horizon, k, r, n, now);
    Owes(quota, horizon, k, Acquire(r, n, now).1, now);
  }

  // -------------------------------------------------------------------- laws

  lemma BasicLaws(quota: nat -> Quota, horizon: nat)
    requires QuotasFit(quota, horizon)
    ensures var o := Ops(quota, horizon);
            FreshLaw(o) && TimeLaw(o) && KeepLaw(o) && LookLaw(o) && FirstLaw(o)
  {
    hide QuotasFit, Create, Acquire, DebtOf, Valid, Stricter, Used;
    var o := Ops(quota, horizon);
    forall k: nat, now: nat | now < horizon && o.create(k, now).Some?
      ensures var s := o.create(k, now).value; o.valid(k, s, now) && o.native(k, s, now) && o.debt(s, now).None?
    {
      Starts(quota, horizon, k, now);
      Owes(quota, horizon, k, Create(quota, k, now).value, now);
    }
    forall k: nat, s: Cell, now: nat | o.valid(k, s, now) ensures o.create(k, now).Some? {
      ValidPeriod(quota, k, s, now);
      CreateIff(quota, k, now);
    }
    forall k: nat, s: Cell, now: nat, t: nat | o.valid(k, s, now) && now <= t
      ensures o.valid(k, s, t)
    {
      UsedLater(quota, k, s, now, t);
    }
    forall k: nat, s: Cell, n: nat, now: nat | o.valid(k, s, now) && now < horizon
      ensures o.valid(k, o.acquire(s, n, now).1, now)
    {
      Charges(quota, horizon, k, s, n, now);
    }
    forall k: nat, s: Cell, d: Debt, now: nat | o.valid(k, s, now) && now < horizon
      ensures o.valid(k, o.restore(s, d, now), now)
    {
      Charges(quota, horizon, k, s, Min(d.spent, s.q.limit), now);
    }
    forall k: nat, now: nat, n: nat | o.create(k, now).Some? && now < horizon
      ensures var (d, s) := o.acquire(o.create(k, now).value, n, now);
              o.debt(s, now).Some? <==> n > 0 && d == Allow
      ensures o.valid(k, o.acquire(o.create(k, now).value, n, now).1, now)
    {
      Starts(quota, horizon, k, now);
      var f := Create(quota, k, now).value;
      Charges(quota, horizon, k, f, n, now);
      Owes(quota, horizon, k, Acquire(f, n, now).1, now);
    }
  }

  lemma DebtDecays(quota: nat -> Quota, horizon: nat, k: nat, s: Cell, now: nat, t: nat)
    requires QuotasFit(quota, horizon) && now <= t < horizon && Valid(quota, k, s, now)
    ensures match DebtOf(s, now)
            case None => DebtOf(s, t).None?
            case Some(d) =>
              && 0 < d.spent <= U32_MAX && now < d.until <= LAST
              && (DebtOf(s, t).None? <==> t >= d.until)
              && (DebtOf(s, t).Some? ==> DebtOf(s, t).value.spent <= d.spent && DebtOf(s, t).value.until == d.until)
  {
    hide QuotasFit, DebtOf, Valid, Used, WindowOf;
    UsedLater(quota, k, s, now, t);
    Owes(quota, horizon, k, s, now);
    Owes(quota, horizon, k, s, t);
    ValidPeriod(quota, k, s, now);
    WindowEnds(s.q, now, t);
  }

  lemma DebtLaws(quota: nat -> Quota, horizon: nat)
    requires QuotasFit(quota, horizon)
    ensures DebtLaw(Ops(quota, horizon)) && NativeLaw(Ops(quota, horizon))
  {
    hide QuotasFit, Create, Acquire, DebtOf, Restore, Valid, Stricter;
    forall k: nat, s: Cell, now: nat, t: nat | Valid(quota, k, s, now) && now <= t < horizon
      ensures match DebtOf(s, now)
              case None => DebtOf(s, t).None?
              case Some(d) =>
                && 0 < d.spent <= U32_MAX && now < d.until <= LAST
                && (DebtOf(s, t).None? <==> t >= d.until)
                && (DebtOf(s, t).Some? ==> DebtOf(s, t).value.spent <= d.spent && DebtOf(s, t).value.until == d.until)
    {
      DebtDecays(quota, horizon, k, s, now, t);
    }
  }

  lemma StricterSimulates(quota: nat -> Quota, horizon: nat, k: nat, r: Cell, s: Cell, n: nat, now: nat)
    requires QuotasFit(quota, horizon) && now < horizon && Valid(quota, k, r, now) && Valid(quota, k, s, now)
             && Stricter(r, s, now)
    ensures var (d, r') := Acquire(r, n, now);
            if d == Allow then Acquire(s, n, now).0 == Allow && Stricter(r', Acquire(s, n, now).1, now)
            else Stricter(r', s, now)
  {
    hide QuotasFit, Acquire, Valid, Used;
    Charges(quota, horizon, k, r, n, now);
    Charges(quota, horizon, k, s, n, now);
    AcquireKeepsQuota(r, n, now);
    AcquireKeepsQuota(s, n, now);
  }

  lemma StricterLasts(quota: nat -> Quota, k: nat, r: Cell, s: Cell, now: nat, t: nat)
    requires Valid(quota, k, r, now) && Valid(quota, k, s, now) && Stricter(r, s, now) && now <= t
    ensures Stricter(r, s, t)
  {
    hide Valid, Used, WindowOf;
    UsedLater(quota, k, r, now, t);
    UsedLater(quota, k, s, now, t);
  }

  lemma Compares(quota: nat -> Quota, horizon: nat, k: nat, r: Cell, s: Cell, now: nat)
    requires QuotasFit(quota, horizon) && now < horizon && Valid(quota, k, r, now) && Valid(quota, k, s, now)
    ensures Stricter(r, s, now) && DebtOf(s, now).Some? ==>
              && DebtOf(r, now).Some?
              && DebtOf(r, now).value.spent >= DebtOf(s, now).value.spent
              && DebtOf(r, now).value.until >= DebtOf(s, now).value.until
    ensures DebtOf(s, now).None? ==> Stricter(r, s, now)
  {
    hide QuotasFit, DebtOf, Valid, Used, WindowOf;
    Owes(quota, horizon, k, r, now);
    Owes(quota, horizon, k, s, now);
    ValidPeriod(quota, k, r, now);
    ValidPeriod(quota, k, s, now);
  }

  lemma OrderLaws(quota: nat -> Quota, horizon: nat)
    requires QuotasFit(quota, horizon)
    ensures StricterLaw(Ops(quota, horizon)) && ResumeLaw(Ops(quota, horizon))
  {
    hide QuotasFit, Create, Acquire, DebtOf, Restore, Valid, Stricter;
    var o := Ops(quota, horizon);
    forall k: nat, r: Cell, s: Cell, now: nat, n: nat
      | Valid(quota, k, r, now) && Valid(quota, k, s, now) && Stricter(r, s, now) && now < horizon
      ensures var (d, r') := Acquire(r, n, now);
              if d == Allow then Acquire(s, n, now).0 == Allow && Stricter(r', Acquire(s, n, now).1, now)
              else Stricter(r', s, now)
    {
      StricterSimulates(quota, horizon, k, r, s, n, now);
    }
    forall k: nat, r: Cell, s: Cell, now: nat, t: nat
      | Valid(quota, k, r, now) && Valid(quota, k, s, now) && Stricter(r, s, now) && now <= t
      ensures Stricter(r, s, t)
    {
      StricterLasts(quota, k, r, s, now, t);
    }
    forall k: nat, r: Cell, s: Cell, now: nat
      | Valid(quota, k, r, now) && Valid(quota, k, s, now) && now < horizon
      ensures Stricter(r, s, now) && DebtOf(s, now).Some? ==>
                && DebtOf(r, now).Some?
                && DebtOf(r, now).value.spent >= DebtOf(s, now).value.spent
                && DebtOf(r, now).value.until >= DebtOf(s, now).value.until
      ensures DebtOf(s, now).None? ==> Stricter(r, s, now)
    {
      Compares(quota, horizon, k, r, s, now);
    }
    forall k: nat, s: Cell, now: nat, c: Debt
      | Valid(quota, k, s, now) && now < horizon && DebtOf(s, now).Some? && Create(quota, k, now).Some?
        && c.spent >= DebtOf(s, now).value.spent && c.until >= DebtOf(s, now).value.until
      ensures Stricter(Restore(Create(quota, k, now).value, c, now), s, now)
    {
      ResumeIsStricter(quota, horizon, k, s, c, now);
    }
  }

  /** The fixed window obeys the laws of eviction. */
  lemma WindowIsLawful(quota: nat -> Quota, horizon: nat)
    requires QuotasFit(quota, horizon)
    ensures Lawful(Ops(quota, horizon))
  {
    BasicLaws(quota, horizon);
    DebtLaws(quota, horizon);
    OrderLaws(quota, horizon);
    hide *;
    assert Lawful(Ops(quota, horizon));
  }
}
