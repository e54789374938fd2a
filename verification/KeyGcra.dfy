/** The GCRA as a key's state (src/algo/mod.rs:190-221): it obeys the laws of
    eviction for every quota, as long as no key can owe past the last deadline a
    sketch cell expresses. */
module KeyGcra {
  import opened Units
  import opened Gcra
  import opened KeyLaws

  datatype Cell = Cell(p: Params, tat: nat)

  function Create(quota: nat -> Quota, k: nat): Option<Cell> {
    if Closed(New(quota(k))) then None else Some(Cell(New(quota(k)), 0))
  }

  function Acquire(s: Cell, n: nat, now: nat): (Decision, Cell) {
    if Open(s.p) then
      var (d, tat) := CheckN(s.p, s.tat, n, now);
      (d, Cell(s.p, tat))
    else (Deny(DURATION_MAX), s)
  }

  /** The trait's `debt`, from a snapshot. */
  function DebtOf(s: Cell, now: nat): Option<Debt> {
    if Open(s.p) then
      var snap := Peek(s.p, s.tat, now);
      var spent := SatSub(snap.limit, snap.remaining);
      if spent > 0 then Some(Debt(spent, now + snap.resetAfter)) else None
    else None
  }

  predicate Full(s: Cell, now: nat) { Open(s.p) ==> IsFull(s.p, s.tat, now) }

  function Restore(s: Cell, d: Debt, now: nat): Cell {
    if Open(s.p) && d.until > now then Cell(s.p, RestoreUntil(s.p, s.tat, d.until)) else s
  }

  predicate Valid(quota: nat -> Quota, k: nat, s: Cell) {
    s.p == New(quota(k)) && Open(s.p) && s.tat <= U64_MAX
  }

  predicate Native(s: Cell, now: nat) { Open(s.p) && s.tat <= Iv(s.p, now) + s.p.tolerance + 1 }

  predicate Stricter(r: Cell, s: Cell, now: nat) {
    r.p == s.p && Open(s.p) && (r.tat >= s.tat || s.tat <= Iv(s.p, now))
  }

  function Ops(quota: nat -> Quota, horizon: nat): KeyOps<Cell> {
    KeyOps(horizon,
           (k, now) => Create(quota, k),
           (s, n, now) => Acquire(s, n, now),
           (s, now) => DebtOf(s, now),
           (s, now) => Full(s, now),
           (s, now) => s,
           (s, d, now) => Restore(s, d, now),
           (k, s, now) => Valid(quota, k, s),
           (k, s, now) => Native(s, now),
           (r, s, now) => Stricter(r, s, now))
  }

  /** Before the horizon the end of a key's whole burst is a deadline the sketch
      can express. */
  predicate Within(p: Params, horizon: nat) {
    horizon <= LAST && (Open(p) ==> StartOf(p, Iv(p, horizon) + p.tolerance + 1) <= LAST)
  }

  ghost predicate QuotasFit(quota: nat -> Quota, horizon: nat) {
    forall k: nat :: quota(k).limit <= U32_MAX && quota(k).burst <= U32_MAX && Within(New(quota(k)), horizon)
  }

  // -------------------------------------------------------------- arithmetic

  lemma NoSaturation(p: Params, horizon: nat, now: nat)
    requires Open(p) && Within(p, horizon) && now <= horizon
    ensures Iv(p, now) + p.tolerance + 1 <= LAST < U64_MAX
    ensures StartOf(p, Iv(p, now) + p.tolerance + 1) <= LAST
  {
    IvMonotone(p, now, horizon);
    var i, j := Iv(p, now) + p.tolerance + 1, Iv(p, horizon) + p.tolerance + 1;
    if i < j { StartStrictlyIncreases(p, i, j); }
    IntervalBegunIff(p, j, LAST);
    IvAtMostNanos(p, LAST);
  }

  /** What a word owes. */
  lemma Owes(p: Params, tat: nat, now: nat)
    requires Open(p) && tat <= U64_MAX && now < U64_MAX && Iv(p, now) + p.tolerance + 1 <= U64_MAX
    ensures DebtOf(Cell(p, tat), now) ==
              if tat <= Iv(p, now) then None
              else Some(Debt(Min(tat - Iv(p, now), p.tolerance + 1), NanosAt(p, tat)))
    ensures tat > Iv(p, now) ==> NanosAt(p, tat) > now
  {
    IntervalBegunIff(p, tat, now);
    hide StartOf, Iv;
  }

  lemma StartMonotone(p: Params, i: nat, j: nat)
    requires Open(p) && i <= j
    ensures StartOf(p, i) <= StartOf(p, j)
  {
    if i < j { StartStrictlyIncreases(p, i, j); }
  }

  // -------------------------------------------------------------------- laws

  lemma CreateIsValid(quota: nat -> Quota, horizon: nat, k: nat, now: nat)
    requires QuotasFit(quota, horizon) && now < horizon && Create(quota, k).Some?
    ensures var s := Create(quota, k).value;
            Valid(quota, k, s) && Native(s, now) && DebtOf(s, now).None?
            && s.tat == 0 && Within(s.p, horizon)
  {
    assert Within(New(quota(k)), horizon);
    NewIsClosedIff(quota(k));
    var p := New(quota(k));
    NoSaturation(p, horizon, now);
    Owes(p, 0, now);
  }

  /** A key has a state exactly if its quota admits something. */
  lemma CreateIff(quota: nat -> Quota, k: nat)
    requires quota(k).limit <= U32_MAX && quota(k).burst <= U32_MAX
    ensures Create(quota, k).None? <==> AdmitsNothing(quota(k))
  {
    NewIsClosedIff(quota(k));
  }

  lemma ValidFits(quota: nat -> Quota, horizon: nat, k: nat, s: Cell, now: nat)
    requires QuotasFit(quota, horizon) && now < horizon && Valid(quota, k, s)
    ensures now < U64_MAX && Within(s.p, horizon)
    ensures Iv(s.p, now) + s.p.tolerance + 1 <= U64_MAX
    ensures StartOf(s.p, Iv(s.p, now) + s.p.tolerance + 1) <= LAST
  {
    assert Within(New(quota(k)), horizon);
    NoSaturation(s.p, horizon, now);
  }

  lemma AcquireLaw(quota: nat -> Quota, horizon: nat, k: nat, s: Cell, n: nat, now: nat)
    requires QuotasFit(quota, horizon) && now < horizon && Valid(quota, k, s)
    ensures var s' := Acquire(s, n, now).1;
            Valid(quota, k, s') && (Native(s, now) ==> Native(s', now))
  {
    ValidFits(quota, horizon, k, s, now);
    if n > 0 { AdmittedIff(s.p, s.tat, n, now); }
    hide StartOf, Iv, New;
  }

  lemma RestoreIsValid(quota: nat -> Quota, horizon: nat, k: nat, s: Cell, d: Debt, now: nat)
    requires QuotasFit(quota, horizon) && Valid(quota, k, s)
    ensures Valid(quota, k, Restore(s, d, now))
  {
    var u := Clamp64(d.until);
    IvAtMostNanos(s.p, u);
    hide StartOf, Iv, New;
  }

  lemma DebtDecays(quota: nat -> Quota, horizon: nat, k: nat, s: Cell, now: nat, t: nat)
    requires QuotasFit(quota, horizon) && now <= t < horizon && Valid(quota, k, s)
    ensures Full(s, now) <==> DebtOf(s, now).None?
    ensures match DebtOf(s, now)
            case None => DebtOf(s, t).None?
            case Some(d) =>
              && 0 < d.spent <= U32_MAX && now < d.until <= 2 * U64_MAX
              && (DebtOf(s, t).None? <==> t >= d.until)
              && (DebtOf(s, t).Some? ==> DebtOf(s, t).value.spent <= d.spent && DebtOf(s, t).value.until == d.until)
  {
    ValidFits(quota, horizon, k, s, now);
    ValidFits(quota, horizon, k, s, t);
    Owes(s.p, s.tat, now);
    Owes(s.p, s.tat, t);
    IvMonotone(s.p, now, t);
    IntervalBegunIff(s.p, s.tat, t);
    hide StartOf, Iv, New, DebtOf, QuotasFit;
  }

  lemma NativeOwes(quota: nat -> Quota, horizon: nat, k: nat, s: Cell, now: nat)
    requires QuotasFit(quota, horizon) && now < horizon && Valid(quota, k, s) && Native(s, now) && DebtOf(s, now).Some?
    ensures DebtOf(s, now).value.until == StartOf(s.p, s.tat) <= LAST
  {
    ValidFits(quota, horizon, k, s, now);
    Owes(s.p, s.tat, now);
    StartMonotone(s.p, s.tat, Iv(s.p, now) + s.p.tolerance + 1);
    hide StartOf, Iv, New, DebtOf, QuotasFit;
  }

  lemma StricterSimulates(quota: nat -> Quota, horizon: nat, k: nat, r: Cell, s: Cell, n: nat, now: nat)
    requires QuotasFit(quota, horizon) && now < horizon && Valid(quota, k, r) && Valid(quota, k, s)
    requires Stricter(r, s, now)
    ensures var (d, r') := Acquire(r, n, now);
            if d == Allow then Acquire(s, n, now).0 == Allow && Stricter(r', Acquire(s, n, now).1, now)
            else Stricter(r', s, now)
  {
    ValidFits(quota, horizon, k, s, now);
    if n > 0 {
      AdmittedIff(r.p, r.tat, n, now);
      AdmittedIff(s.p, s.tat, n, now);
    }
    hide StartOf, Iv, New, QuotasFit;
  }

  lemma StricterOwesMore(quota: nat -> Quota, horizon: nat, k: nat, r: Cell, s: Cell, now: nat)
    requires QuotasFit(quota, horizon) && now < horizon && Valid(quota, k, r) && Valid(quota, k, s)
    requires Stricter(r, s, now) && DebtOf(s, now).Some?
    ensures DebtOf(r, now).Some?
    ensures DebtOf(r, now).value.spent >= DebtOf(s, now).value.spent
    ensures DebtOf(r, now).value.until >= DebtOf(s, now).value.until
  {
    ValidFits(quota, horizon, k, s, now);
    Owes(r.p, r.tat, now);
    Owes(s.p, s.tat, now);
    StartMonotone(s.p, s.tat, Max(s.tat, r.tat));
    hide StartOf, Iv, New, DebtOf, QuotasFit;
  }

  lemma ResumeIsStricter(quota: nat -> Quota, horizon: nat, k: nat, s: Cell, c: Debt, now: nat)
    requires QuotasFit(quota, horizon) && now < horizon && Valid(quota, k, s) && Native(s, now)
    requires DebtOf(s, now).Some? && Create(quota, k).Some? && c.until >= DebtOf(s, now).value.until
    ensures Stricter(Restore(Create(quota, k).value, c, now), s, now)
  {
    NativeOwes(quota, horizon, k, s, now);
    DebtDecays(quota, horizon, k, s, now, now);
    var p, u := s.p, Clamp64(c.until);
    var w := RestoreUntil(p, 0, c.until);
    RestoreIsLeast(p, 0, u);
    if w < s.tat { StartStrictlyIncreases(p, w, s.tat); }
    hide StartOf, Iv, New, DebtOf, QuotasFit;
  }

  lemma FirstOwes(quota: nat -> Quota, horizon: nat, k: nat, n: nat, now: nat)
    requires QuotasFit(quota, horizon) && now < horizon && Create(quota, k).Some?
    ensures var (d, s) := Acquire(Create(quota, k).value, n, now);
            DebtOf(s, now).Some? <==> n > 0 && d == Allow
  {
    CreateIsValid(quota, horizon, k, now);
    var f := Create(quota, k).value;
    ValidFits(quota, horizon, k, f, now);
    AcquireLaw(quota, horizon, k, f, n, now);
    if n > 0 { AdmittedIff(f.p, 0, n, now); }
    Owes(f.p, Acquire(f, n, now).1.tat, now);
    hide StartOf, Iv, New, DebtOf, QuotasFit;
  }

  lemma StartZero(p: Params)
    requires Open(p)
    ensures StartOf(p, 0) == 0
  {
  }

  /** The least interval not begun before `until` is the one after those begun by the
      nanosecond before. */
  lemma LeastFrom(p: Params, w: nat, until: nat)
    requires Open(p) && until > 0 && StartOf(p, w) >= until && (forall j: nat :: StartOf(p, j) >= until ==> w <= j)
    ensures w == Iv(p, until - 1) + 1
  {
    hide StartOf, Iv;
    var i := Iv(p, until - 1);
    IntervalBegunIff(p, w, until - 1);
    IntervalBegunIff(p, i + 1, until - 1);
  }

  /** A fresh word charged until a deadline owes exactly what the quota's rate emits
      from now until then, rounded up, and is granted exactly what that leaves of the
      burst. */
  lemma ChargedOwes(quota: nat -> Quota, horizon: nat, k: nat, d: Debt, n: nat, now: nat)
    requires QuotasFit(quota, horizon) && now < horizon && Create(quota, k).Some? && now < d.until
    ensures !AdmitsNothing(quota(k))
    ensures var q := quota(k);
            Acquire(Restore(Create(quota, k).value, d, now), n, now).0 == Allow <==>
              n == 0 || Emitted(q, Clamp64(d.until) - 1) + 1 + n <= Emitted(q, now) + q.burst
  {
    CreateIff(quota, k);
    CreateIsValid(quota, horizon, k, now);
    var f := Create(quota, k).value;
    ValidFits(quota, horizon, k, f, now);
    RateIsTheQuotas(quota(k), now);
    var until := Clamp64(d.until);
    RateIsTheQuotas(quota(k), until - 1);
    hide QuotasFit, New, Iv, StartOf, Emitted;
    RestoreIsLeast(f.p, 0, until);
    var w := RestoreUntil(f.p, 0, until);
    StartZero(f.p);
    LeastFrom(f.p, w, until);
    IvMonotone(f.p, now, until - 1);
    if n > 0 { AdmittedIff(f.p, w, n, now); }
  }

  /** A fresh word is granted up to the whole burst. */
  lemma FreshGrants(quota: nat -> Quota, horizon: nat, k: nat, n: nat, now: nat)
    requires QuotasFit(quota, horizon) && now < horizon && Create(quota, k).Some?
    ensures Acquire(Create(quota, k).value, n, now).0 == Allow <==> n <= quota(k).burst
  {
    CreateIff(quota, k);
    CreateIsValid(quota, horizon, k, now);
    var f := Create(quota, k).value;
    ValidFits(quota, horizon, k, f, now);
    RateIsTheQuotas(quota(k), now);
    hide QuotasFit, New, Iv, StartOf, Emitted;
    if n > 0 { AdmittedIff(f.p, 0, n, now); }
  }

  lemma WholeIsLoosest(quota: nat -> Quota, horizon: nat, k: nat, r: Cell, s: Cell, now: nat)
    requires QuotasFit(quota, horizon) && now < horizon && Valid(quota, k, r) && Valid(quota, k, s)
             && DebtOf(s, now).None?
    ensures Stricter(r, s, now)
  {
    ValidFits(quota, horizon, k, s, now);
    Owes(s.p, s.tat, now);
  }

  lemma Lasts(quota: nat -> Quota, horizon: nat, k: nat, s: Cell, now: nat, t: nat)
    requires Valid(quota, k, s) && now <= t
    ensures Native(s, now) ==> Native(s, t)
    ensures forall r :: Stricter(r, s, now) ==> Stricter(r, s, t)
  {
    IvMonotone(s.p, now, t);
  }

  lemma ValidHasQuota(quota: nat -> Quota, k: nat, s: Cell)
    requires Valid(quota, k, s)
    ensures Create(quota, k).Some?
  {
    OpenIsNotClosed(s.p);
  }

  lemma BasicLaws(quota: nat -> Quota, horizon: nat)
    requires QuotasFit(quota, horizon)
    ensures var o := Ops(quota, horizon);
            FreshLaw(o) && TimeLaw(o) && KeepLaw(o) && LookLaw(o) && FirstLaw(o)
  {
    hide QuotasFit, Create, Acquire, DebtOf, Restore, Valid, Native, Stricter, Full;
    var o := Ops(quota, horizon);
    forall k: nat, now: nat | now < horizon && o.create(k, now).Some?
      ensures var s := o.create(k, now).value; o.valid(k, s, now) && o.native(k, s, now) && o.debt(s, now).None?
    {
      CreateIsValid(quota, horizon, k, now);
    }
    forall k: nat, s: Cell | Valid(quota, k, s) ensures Create(quota, k).Some? {
      ValidHasQuota(quota, k, s);
    }
    forall k: nat, s: Cell, now: nat, t: nat | Valid(quota, k, s) && now <= t
      ensures Native(s, now) ==> Native(s, t)
    {
      Lasts(quota, horizon, k, s, now, t);
    }
    forall k: nat, s: Cell, n: nat, now: nat | o.valid(k, s, now) && now < horizon
      ensures var s' := o.acquire(s, n, now).1; o.valid(k, s', now) && (o.native(k, s, now) ==> o.native(k, s', now))
    {
      AcquireLaw(quota, horizon, k, s, n, now);
    }
    forall k: nat, s: Cell, d: Debt, now: nat | o.valid(k, s, now)
      ensures o.valid(k, o.restore(s, d, now), now)
    {
      RestoreIsValid(quota, horizon, k, s, d, now);
    }
    forall k: nat, now: nat, n: nat | o.create(k, now).Some? && now < horizon
      ensures var (d, s) := o.acquire(o.create(k, now).value, n, now);
              o.debt(s, now).Some? <==> n > 0 && d == Allow
      ensures o.valid(k, o.acquire(o.create(k, now).value, n, now).1, now)
    {
      FirstOwes(quota, horizon, k, n, now);
      CreateIsValid(quota, horizon, k, now);
      AcquireLaw(quota, horizon, k, Create(quota, k).value, n, now);
    }
  }

  lemma DebtLaws(quota: nat -> Quota, horizon: nat)
    requires QuotasFit(quota, horizon)
    ensures DebtLaw(Ops(quota, horizon)) && NativeLaw(Ops(quota, horizon))
  {
    hide QuotasFit, Create, Acquire, DebtOf, Restore, Valid, Native, Stricter, Full;
    forall k: nat, s: Cell, now: nat, t: nat | Valid(quota, k, s) && now <= t < horizon
      ensures Full(s, now) <==> DebtOf(s, now).None?
      ensures match DebtOf(s, now)
              case None => DebtOf(s, t).None?
              case Some(d) =>
                && 0 < d.spent <= U32_MAX && now < d.until <= 2 * U64_MAX
                && (DebtOf(s, t).None? <==> t >= d.until)
                && (DebtOf(s, t).Some? ==> DebtOf(s, t).value.spent <= d.spent && DebtOf(s, t).value.until == d.until)
    {
      DebtDecays(quota, horizon, k, s, now, t);
    }
    forall k: nat, s: Cell, now: nat | Valid(quota, k, s) && Native(s, now) && now < horizon && DebtOf(s, now).Some?
      ensures DebtOf(s, now).value.until <= LAST
    {
      NativeOwes(quota, horizon, k, s, now);
    }
  }

  lemma OrderLaws(quota: nat -> Quota, horizon: nat)
    requires QuotasFit(quota, horizon)
    ensures StricterLaw(Ops(quota, horizon)) && ResumeLaw(Ops(quota, horizon))
  {
    hide QuotasFit, Create, Acquire, DebtOf, Restore, Valid, Native, Stricter, Full;
    forall k: nat, r: Cell, s: Cell, now: nat, n: nat
      | Valid(quota, k, r) && Valid(quota, k, s) && Stricter(r, s, now) && now < horizon
      ensures var (d, r') := Acquire(r, n, now);
              if d == Allow then Acquire(s, n, now).0 == Allow && Stricter(r', Acquire(s, n, now).1, now)
              else Stricter(r', s, now)
    {
      StricterSimulates(quota, horizon, k, r, s, n, now);
    }
    forall k: nat, r: Cell, s: Cell, now: nat, t: nat
      | Valid(quota, k, r) && Valid(quota, k, s) && Stricter(r, s, now) && now <= t
      ensures Stricter(r, s, t)
    {
      Lasts(quota, horizon, k, s, now, t);
    }
    forall k: nat, r: Cell, s: Cell, now: nat
      | Valid(quota, k, r) && Valid(quota, k, s) && Stricter(r, s, now) && now < horizon && DebtOf(s, now).Some?
      ensures DebtOf(r, now).Some?
      ensures DebtOf(r, now).value.spent >= DebtOf(s, now).value.spent
      ensures DebtOf(r, now).value.until >= DebtOf(s, now).value.until
    {
      StricterOwesMore(quota, horizon, k, r, s, now);
    }
    forall k: nat, r: Cell, s: Cell, now: nat
      | Valid(quota, k, r) && Valid(quota, k, s) && now < horizon && DebtOf(s, now).None?
      ensures Stricter(r, s, now)
    {
      WholeIsLoosest(quota, horizon, k, r, s, now);
    }
    forall k: nat, s: Cell, now: nat, c: Debt
      | Valid(quota, k, s) && Native(s, now) && now < horizon && DebtOf(s, now).Some? && Create(quota, k).Some?
        && c.until >= DebtOf(s, now).value.until
      ensures Stricter(Restore(Create(quota, k).value, c, now), s, now)
    {
      ResumeIsStricter(quota, horizon, k, s, c, now);
    }
  }

  /** The GCRA obeys the laws of eviction. */
  lemma GcraIsLawful(quota: nat -> Quota, horizon: nat)
    requires QuotasFit(quota, horizon)
    ensures Lawful(Ops(quota, horizon))
  {
    BasicLaws(quota, horizon);
    DebtLaws(quota, horizon);
    OrderLaws(quota, horizon);
    hide *;
    assert Lawful(Ops(quota, horizon));
  }
}
