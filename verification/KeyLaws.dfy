/** What a store asks of a key's state (the trait `KeyState`, src/algo/mod.rs:53-110)
    and what has to be true of an algorithm for eviction to be safe.

    An algorithm is a record of functions. `Lawful` says what eviction relies on;
    each algorithm proves it of its own functions. */
module KeyLaws {
  import opened Units

  /** The last deadline a sketch cell can express, in nanoseconds. */
  const LAST: nat := 0xFF_FFFF_FFFF * NANOS_PER_MILLI

  /** The operations, for readings before `horizon`, and three relations the laws
      speak of. Keys are numbers; a key's quota is fixed by `create`.

      - `look` is the state that reading it leaves behind;
      - `valid(k, s, now)`: `s` is a state key `k` can be in at `now`;
      - `native(k, s, now)`: and it was never restored from a record;
      - `stricter(r, s, now)`: from `now` on, `r` grants only what `s` does. */
  datatype KeyOps<!S> = KeyOps(
    horizon: nat,
    create: (nat, nat) -> Option<S>,
    acquire: (S, nat, nat) -> (Decision, S),
    debt: (S, nat) -> Option<Debt>,
    isFull: (S, nat) -> bool,
    look: (S, nat) -> S,
    restore: (S, Debt, nat) -> S,
    valid: (nat, S, nat) -> bool,
    native: (nat, S, nat) -> bool,
    stricter: (S, S, nat) -> bool)

  /** A fresh state owes nothing, and only a key that can have one has any state. */
  ghost predicate FreshLaw<S(!new)>(o: KeyOps<S>) {
    && (forall k: nat, now: nat :: now < o.horizon && o.create(k, now).Some? ==>
          var s := o.create(k, now).value;
          o.valid(k, s, now) && o.native(k, s, now) && o.debt(s, now).None?)
    && (forall k: nat, s: S, now: nat :: o.valid(k, s, now) ==> o.create(k, now).Some?)
  }

  /** The units of a debt, if there is one. */
  function UnitsOf(d: Option<Debt>): nat { if d.Some? then d.value.spent else 0 }

  ghost predicate TimeLaw<S(!new)>(o: KeyOps<S>) {
    forall k: nat, s: S, now: nat, t: nat {:trigger o.valid(k, s, now), o.valid(k, s, t)} ::
      o.valid(k, s, now) && now <= t < o.horizon ==>
        o.valid(k, s, t) && (o.native(k, s, now) ==> o.native(k, s, t))
  }

  ghost predicate KeepLaw<S(!new)>(o: KeyOps<S>) {
    && (forall k: nat, s: S, now: nat, n: nat {:trigger o.valid(k, s, now), o.acquire(s, n, now)} ::
          o.valid(k, s, now) && now < o.horizon && n <= U32_MAX ==>
            var s' := o.acquire(s, n, now).1;
            o.valid(k, s', now) && (o.native(k, s, now) ==> o.native(k, s', now)))
    && (forall k: nat, s: S, now: nat, d: Debt {:trigger o.valid(k, s, now), o.restore(s, d, now)} ::
          o.valid(k, s, now) && now < o.horizon && d.spent <= U32_MAX ==> o.valid(k, o.restore(s, d, now), now))
    && (forall k: nat, s: S, now: nat {:trigger o.valid(k, s, now), o.look(s, now)} ::
          o.valid(k, s, now) && now < o.horizon ==> o.valid(k, o.look(s, now), now))
  }

  /** Reading a state does not change what it owes from then on. */
  ghost predicate LookLaw<S(!new)>(o: KeyOps<S>) {
    forall k: nat, s: S, now: nat, t: nat {:trigger o.valid(k, s, now), o.debt(o.look(s, now), t)} ::
      o.valid(k, s, now) && now <= t < o.horizon ==> o.debt(o.look(s, now), t) == o.debt(s, t)
  }

  /** A debt only shrinks, keeps its deadline, and is gone exactly from then on. */
  ghost predicate DebtLaw<S(!new)>(o: KeyOps<S>) {
    && (forall k: nat, s: S, now: nat {:trigger o.valid(k, s, now), o.isFull(s, now)} ::
          o.valid(k, s, now) && now < o.horizon ==> (o.isFull(s, now) <==> o.debt(s, now).None?))
    && (forall k: nat, s: S, now: nat {:trigger o.valid(k, s, now), o.debt(s, now)} ::
          o.valid(k, s, now) && now < o.horizon && o.debt(s, now).Some? ==>
            var d := o.debt(s, now).value; 0 < d.spent <= U32_MAX && now < d.until <= 2 * U64_MAX)
    && (forall k: nat, s: S, now: nat, t: nat {:trigger o.valid(k, s, now), o.debt(s, t)} ::
          o.valid(k, s, now) && now <= t < o.horizon ==>
            match o.debt(s, now)
            case None => o.debt(s, t).None?
            case Some(d) =>
              && (o.debt(s, t).None? <==> t >= d.until)
              && (o.debt(s, t).Some? ==> o.debt(s, t).value.spent <= d.spent && o.debt(s, t).value.until == d.until))
  }

  ghost predicate NativeLaw<S(!new)>(o: KeyOps<S>) {
    forall k: nat, s: S, now: nat {:trigger o.native(k, s, now)} ::
      o.valid(k, s, now) && o.native(k, s, now) && now < o.horizon && o.debt(s, now).Some? ==>
        o.debt(s, now).value.until <= LAST
  }

  /** `stricter` is a simulation, lasts, survives reading, and orders debts. */
  ghost predicate StricterLaw<S(!new)>(o: KeyOps<S>) {
    && (forall k: nat, r: S, s: S, now: nat, n: nat
          {:trigger o.valid(k, r, now), o.stricter(r, s, now), o.acquire(r, n, now)} ::
          o.valid(k, r, now) && o.valid(k, s, now) && o.native(k, s, now) && o.stricter(r, s, now)
          && now < o.horizon && n <= U32_MAX ==>
            var (d, r') := o.acquire(r, n, now);
            if d == Allow then o.acquire(s, n, now).0 == Allow && o.stricter(r', o.acquire(s, n, now).1, now)
            else o.stricter(r', s, now))
    && (forall k: nat, r: S, s: S, now: nat, t: nat
          {:trigger o.valid(k, r, now), o.stricter(r, s, now), o.stricter(r, s, t)} ::
          o.valid(k, r, now) && o.valid(k, s, now) && o.stricter(r, s, now) && now <= t < o.horizon ==>
            o.stricter(r, s, t))
    && (forall k: nat, r: S, s: S, now: nat
          {:trigger o.valid(k, r, now), o.stricter(r, s, now), o.look(r, now)} ::
          o.valid(k, r, now) && o.valid(k, s, now) && o.stricter(r, s, now) && now < o.horizon ==>
            o.stricter(o.look(r, now), s, now))
    && (forall k: nat, r: S, s: S, now: nat
          {:trigger o.valid(k, r, now), o.stricter(r, s, now), o.debt(s, now)} ::
          o.valid(k, r, now) && o.valid(k, s, now) && o.stricter(r, s, now) && now < o.horizon
            && o.debt(s, now).Some? ==>
            && o.debt(r, now).Some?
            && o.debt(r, now).value.spent >= o.debt(s, now).value.spent
            && o.debt(r, now).value.until >= o.debt(s, now).value.until)
  }

  /** A key may start over when it owes nothing, or charged at least what it owes. */
  ghost predicate ResumeLaw<S(!new)>(o: KeyOps<S>) {
    && (forall k: nat, r: S, s: S, now: nat
          {:trigger o.valid(k, r, now), o.stricter(r, s, now)} ::
          o.valid(k, r, now) && o.valid(k, s, now) && now < o.horizon && o.debt(s, now).None? ==> o.stricter(r, s, now))
    && (forall k: nat, s: S, now: nat, c: Debt
          {:trigger o.native(k, s, now), o.restore(o.create(k, now).value, c, now)} ::
          o.valid(k, s, now) && o.native(k, s, now) && now < o.horizon && o.debt(s, now).Some? && o.create(k, now).Some?
          && o.debt(s, now).value.spent <= c.spent <= U32_MAX && c.until >= o.debt(s, now).value.until ==>
            o.stricter(o.restore(o.create(k, now).value, c, now), s, now))
  }

  /** A key's first request: it owes exactly if it was granted something, and may
      be read up to a millisecond ahead of time without becoming looser. */
  ghost predicate FirstLaw<S(!new)>(o: KeyOps<S>) {
    && (forall k: nat, now: nat, n: nat {:trigger o.acquire(o.create(k, now).value, n, now)} ::
          o.create(k, now).Some? && now < o.horizon && n <= U32_MAX ==>
            var (d, s) := o.acquire(o.create(k, now).value, n, now);
            o.debt(s, now).Some? <==> n > 0 && d == Allow)
    && (forall k: nat, now: nat, n: nat, b: nat {:trigger o.look(o.acquire(o.create(k, now).value, n, now).1, b)} ::
          o.create(k, now).Some? && n <= U32_MAX && now < b <= now + NANOS_PER_MILLI && b < o.horizon ==>
            var s := o.acquire(o.create(k, now).value, n, now).1;
            && o.valid(k, o.look(s, b), now)
            && o.debt(o.look(s, b), now) == o.debt(s, now)
            && (forall r: S :: o.valid(k, r, now) && o.stricter(s, r, now) ==> o.stricter(o.look(s, b), r, now)))
  }

  /** What restoring an evicted key relies on. */
  ghost predicate Orderly<S(!new)>(o: KeyOps<S>) {
    && FreshLaw(o) && TimeLaw(o) && KeepLaw(o) && LookLaw(o) && DebtLaw(o)
    && NativeLaw(o) && StricterLaw(o) && ResumeLaw(o)
  }

  /** What a store relies on: it reads new keys ahead of time too. */
  ghost predicate Lawful<S(!new)>(o: KeyOps<S>) { Orderly(o) && FirstLaw(o) }

  // ------------------------------------------------------------ the laws used

  lemma Fresh<S(!new)>(o: KeyOps<S>, k: nat, now: nat)
    requires Orderly(o) && now < o.horizon && o.create(k, now).Some?
    ensures var s := o.create(k, now).value;
            o.valid(k, s, now) && o.native(k, s, now) && o.debt(s, now).None?
  {
    hide TimeLaw, KeepLaw, LookLaw, DebtLaw, NativeLaw, StricterLaw, ResumeLaw;
  }

  lemma HasQuota<S(!new)>(o: KeyOps<S>, k: nat, s: S, now: nat)
    requires Orderly(o)
    ensures o.valid(k, s, now) ==> o.create(k, now).Some?
  {
    hide TimeLaw, KeepLaw, LookLaw, DebtLaw, NativeLaw, StricterLaw, ResumeLaw;
  }

  lemma Ages<S(!new)>(o: KeyOps<S>, k: nat, s: S, now: nat, t: nat)
    requires Orderly(o) && o.valid(k, s, now) && now <= t < o.horizon
    ensures o.valid(k, s, t) && (o.native(k, s, now) ==> o.native(k, s, t))
  {
    hide FreshLaw, KeepLaw, LookLaw, DebtLaw, NativeLaw, StricterLaw, ResumeLaw;
  }

  lemma Acquired<S(!new)>(o: KeyOps<S>, k: nat, s: S, n: nat, now: nat)
    requires Orderly(o) && o.valid(k, s, now) && now < o.horizon && n <= U32_MAX
    ensures var s' := o.acquire(s, n, now).1;
            o.valid(k, s', now) && (o.native(k, s, now) ==> o.native(k, s', now))
  {
    hide FreshLaw, TimeLaw, LookLaw, DebtLaw, NativeLaw, StricterLaw, ResumeLaw;
  }

  lemma Restored<S(!new)>(o: KeyOps<S>, k: nat, s: S, d: Debt, now: nat)
    requires Orderly(o) && o.valid(k, s, now) && now < o.horizon && d.spent <= U32_MAX
    ensures o.valid(k, o.restore(s, d, now), now)
  {
    hide FreshLaw, TimeLaw, LookLaw, DebtLaw, NativeLaw, StricterLaw, ResumeLaw;
  }

  lemma Looked<S(!new)>(o: KeyOps<S>, k: nat, s: S, now: nat, t: nat)
    requires Orderly(o) && o.valid(k, s, now) && now <= t < o.horizon
    ensures o.valid(k, o.look(s, now), now) && o.debt(o.look(s, now), t) == o.debt(s, t)
  {
    hide FreshLaw, TimeLaw, DebtLaw, NativeLaw, StricterLaw, ResumeLaw;
  }

  lemma Owed<S(!new)>(o: KeyOps<S>, k: nat, s: S, now: nat)
    requires Orderly(o) && o.valid(k, s, now) && now < o.horizon
    ensures o.isFull(s, now) <==> o.debt(s, now).None?
    ensures o.debt(s, now).Some? ==>
              var d := o.debt(s, now).value; 0 < d.spent <= U32_MAX && now < d.until <= 2 * U64_MAX
    ensures o.native(k, s, now) && o.debt(s, now).Some? ==> o.debt(s, now).value.until <= LAST
  {
    hide FreshLaw, TimeLaw, KeepLaw, LookLaw, StricterLaw, ResumeLaw;
  }

  lemma Decays<S(!new)>(o: KeyOps<S>, k: nat, s: S, now: nat, t: nat)
    requires Orderly(o) && o.valid(k, s, now) && now <= t < o.horizon
    ensures match o.debt(s, now)
            case None => o.debt(s, t).None?
            case Some(d) =>
              && (o.debt(s, t).None? <==> t >= d.until)
              && (o.debt(s, t).Some? ==> o.debt(s, t).value.spent <= d.spent && o.debt(s, t).value.until == d.until)
  {
    hide FreshLaw, TimeLaw, KeepLaw, LookLaw, NativeLaw, StricterLaw, ResumeLaw;
  }

  lemma Simulates<S(!new)>(o: KeyOps<S>, k: nat, r: S, s: S, n: nat, now: nat)
    requires Orderly(o) && o.valid(k, r, now) && o.valid(k, s, now) && o.native(k, s, now) && o.stricter(r, s, now)
    requires now < o.horizon && n <= U32_MAX
    ensures var (d, r') := o.acquire(r, n, now);
            if d == Allow then o.acquire(s, n, now).0 == Allow && o.stricter(r', o.acquire(s, n, now).1, now)
            else o.stricter(r', s, now)
  {
    hide FreshLaw, TimeLaw, KeepLaw, LookLaw, DebtLaw, NativeLaw, ResumeLaw;
  }

  lemma StaysStricter<S(!new)>(o: KeyOps<S>, k: nat, r: S, s: S, now: nat, t: nat)
    requires Orderly(o) && o.valid(k, r, now) && o.valid(k, s, now) && o.stricter(r, s, now) && now <= t < o.horizon
    ensures o.stricter(r, s, t) && o.stricter(o.look(r, now), s, now)
  {
    hide FreshLaw, TimeLaw, KeepLaw, LookLaw, DebtLaw, NativeLaw, ResumeLaw;
  }

  lemma OwesMore<S(!new)>(o: KeyOps<S>, k: nat, r: S, s: S, now: nat)
    requires Orderly(o) && o.valid(k, r, now) && o.valid(k, s, now) && o.stricter(r, s, now) && now < o.horizon
    ensures o.debt(s, now).Some? ==>
              && o.debt(r, now).Some?
              && o.debt(r, now).value.spent >= o.debt(s, now).value.spent
              && o.debt(r, now).value.until >= o.debt(s, now).value.until
  {
    hide FreshLaw, TimeLaw, KeepLaw, LookLaw, DebtLaw, NativeLaw, ResumeLaw;
  }

  lemma WholeIsLoosest<S(!new)>(o: KeyOps<S>, k: nat, r: S, s: S, now: nat)
    requires Orderly(o) && o.valid(k, r, now) && o.valid(k, s, now) && now < o.horizon && o.debt(s, now).None?
    ensures o.stricter(r, s, now)
  {
    hide FreshLaw, TimeLaw, KeepLaw, LookLaw, DebtLaw, NativeLaw, StricterLaw;
  }

  lemma Resumes<S(!new)>(o: KeyOps<S>, k: nat, s: S, c: Debt, now: nat)
    requires Orderly(o) && o.valid(k, s, now) && o.native(k, s, now) && now < o.horizon
    requires o.debt(s, now).Some? && o.create(k, now).Some?
    requires o.debt(s, now).value.spent <= c.spent <= U32_MAX && c.until >= o.debt(s, now).value.until
    ensures o.stricter(o.restore(o.create(k, now).value, c, now), s, now)
  {
    hide FreshLaw, TimeLaw, KeepLaw, LookLaw, DebtLaw, NativeLaw, StricterLaw;
  }

  lemma FirstOwes<S(!new)>(o: KeyOps<S>, k: nat, n: nat, now: nat)
    requires FirstLaw(o) && o.create(k, now).Some? && now < o.horizon && n <= U32_MAX
    ensures var (d, s) := o.acquire(o.create(k, now).value, n, now);
            o.debt(s, now).Some? <==> n > 0 && d == Allow
  {
  }

  lemma LooksAhead<S(!new)>(o: KeyOps<S>, k: nat, n: nat, now: nat, b: nat, r: S)
    requires FirstLaw(o) && o.create(k, now).Some? && n <= U32_MAX && now < b <= now + NANOS_PER_MILLI && b < o.horizon
    requires o.valid(k, r, now)
    ensures var s := o.acquire(o.create(k, now).value, n, now).1;
            && o.valid(k, o.look(s, b), now)
            && o.debt(o.look(s, b), now) == o.debt(s, now)
            && (o.stricter(s, r, now) ==> o.stricter(o.look(s, b), r, now))
  {
  }
}
