/** Recovery hints are exact to the millisecond (src/store.rs:260-356, 958-973):
    from its hint on a key is whole, and until then it owes. */
module ShardHints {
  import opened Units
  import opened KeyLaws
  import opened Shard

  /** From `at` (ns) on, as seen from `now`, the state owes nothing. */
  ghost predicate WholeFrom<S(!new)>(o: KeyOps<S>, s: S, now: nat, at: nat) {
    forall t: nat {:trigger o.debt(s, t)} :: now <= t < o.horizon && at <= t ==> o.debt(s, t).None?
  }

  /** A trusted hint: known, and not outdated by a check. */
  predicate Trusted<S>(x: Slot<S>) { !x.referenced && x.hint != UNKNOWN }

  /** The hint is the millisecond the state is whole by: that of its deadline while
      it owes, and at most the next one once it does not. */
  ghost predicate Tells<S(!new)>(o: KeyOps<S>, s: S, now: nat, hint: nat) {
    && WholeFrom(o, s, now, hint * NANOS_PER_MILLI)
    && match o.debt(s, now)
       case None => hint <= Millis(now) + 1
       case Some(d) => hint == CeilMillis(d.until)
  }

  ghost predicate HintOk<S(!new)>(o: KeyOps<S>, x: Slot<S>, now: nat) {
    Trusted(x) ==> Tells(o, x.state, now, x.hint)
  }

  lemma MillisFloor(now: nat)
    requires now <= U64_MAX
    ensures Millis(now) * NANOS_PER_MILLI <= now < (Millis(now) + 1) * NANOS_PER_MILLI <= now + NANOS_PER_MILLI
  {
  }

  lemma CeilMillisPassed(due: nat, now: nat)
    requires due <= now <= U64_MAX
    ensures CeilMillis(due) <= Millis(now) + 1
  {
    CeilMillisIsCeiling(due);
    MillisFloor(now);
  }

  lemma TellsLater<S(!new)>(o: KeyOps<S>, k: nat, s: S, now: nat, later: nat, hint: nat)
    requires Orderly(o) && o.valid(k, s, now) && now <= later < o.horizon <= U64_MAX && Tells(o, s, now, hint)
    ensures Tells(o, s, later, hint)
  {
    hide Orderly, CeilMillis;
    Decays(o, k, s, now, later);
    if o.debt(s, now).Some? && o.debt(s, later).None? { CeilMillisPassed(o.debt(s, now).value.until, later); }
  }

  lemma HintLasts<S(!new)>(o: KeyOps<S>, x: Slot<S>, now: nat, later: nat)
    requires Orderly(o) && o.valid(x.key, x.state, now) && now <= later < o.horizon <= U64_MAX && HintOk(o, x, now)
    ensures HintOk(o, x, later)
  {
    hide Orderly, Tells;
    if Trusted(x) { TellsLater(o, x.key, x.state, now, later, x.hint); }
  }

  lemma CeilMillisSmall(ns: nat)
    requires ns <= 2 * U64_MAX
    ensures CeilMillis(ns) < U64_MAX
  {
  }

  /** The exact hint is never early nor late, and is in the past only if nothing is
      owed. */
  lemma ExactIsWhole<S(!new)>(o: KeyOps<S>, k: nat, s: S, now: nat)
    requires Lawful(o) && o.valid(k, s, now) && now < o.horizon <= U64_MAX
    ensures Tells(o, s, now, ExactHint(o, s, now))
    ensures ExactHint(o, s, now) <= Millis(now) <==> o.debt(s, now).None?
    ensures ExactHint(o, s, now) < UNKNOWN
  {
    hide Orderly, FirstLaw;
    Owed(o, k, s, now);
    var d := o.debt(s, now);
    if d.Some? {
      CeilMillisIsCeiling(d.value.until);
      CeilMillisAfter(d.value.until, now);
      CeilMillisSmall(d.value.until);
    }
    forall t: nat | now <= t < o.horizon && ExactHint(o, s, now) * NANOS_PER_MILLI <= t ensures o.debt(s, t).None? {
      Decays(o, k, s, now, t);
    }
  }

  /** Reading a state keeps what is known of it. */
  lemma LookKeepsWhole<S(!new)>(o: KeyOps<S>, k: nat, s: S, now: nat, at: nat)
    requires Lawful(o) && o.valid(k, s, now) && now < o.horizon && WholeFrom(o, s, now, at)
    ensures WholeFrom(o, o.look(s, now), now, at)
  {
    hide Orderly, FirstLaw;
    forall t: nat | now <= t < o.horizon && at <= t ensures o.debt(o.look(s, now), t).None? {
      Looked(o, k, s, now, t);
    }
  }

  lemma LookKeepsTelling<S(!new)>(o: KeyOps<S>, k: nat, s: S, now: nat, hint: nat)
    requires Lawful(o) && o.valid(k, s, now) && now < o.horizon && Tells(o, s, now, hint)
    ensures Tells(o, o.look(s, now), now, hint)
  {
    hide Orderly, FirstLaw, WholeFrom, CeilMillis, Millis;
    LookKeepsWhole(o, k, s, now, hint * NANOS_PER_MILLI);
    Looked(o, k, s, now, now);
  }

  lemma ExactHintOfWhole<S(!new)>(o: KeyOps<S>, s: S, now: nat)
    ensures o.debt(s, now).None? ==> ExactHint(o, s, now) == 0
  {
  }

  /** A key that owes nothing never does again by itself. */
  lemma StaysWhole<S(!new)>(o: KeyOps<S>, k: nat, s: S, now: nat)
    requires Lawful(o) && o.valid(k, s, now) && now < o.horizon && o.debt(s, now).None?
    ensures Tells(o, s, now, 0)
  {
    hide Orderly, FirstLaw;
    forall t: nat | now <= t < o.horizon ensures o.debt(s, t).None? {
      Decays(o, k, s, now, t);
    }
  }

  lemma TellingIsDue<S(!new)>(o: KeyOps<S>, k: nat, s: S, now: nat, hint: nat)
    requires Lawful(o) && o.valid(k, s, now) && now < o.horizon <= U64_MAX && Tells(o, s, now, hint)
    ensures hint <= Millis(now) ==> o.debt(s, now).None?
    ensures hint > Millis(now) + 1 ==> o.debt(s, now).Some?
    ensures o.debt(s, now).Some? ==> Millis(now) < hint < UNKNOWN
  {
    hide Orderly, FirstLaw, WholeFrom, CeilMillis, Millis;
    Owed(o, k, s, now);
    if o.debt(s, now).Some? {
      CeilMillisAfter(o.debt(s, now).value.until, now);
      CeilMillisSmall(o.debt(s, now).value.until);
    }
  }

  /** A refreshed hint can be relied on, whatever the slot's reference bit says: it
      is in the past exactly if nothing is owed. */
  lemma RefreshedIsWhole<S(!new)>(o: KeyOps<S>, x: Slot<S>, now: nat)
    requires Lawful(o) && o.valid(x.key, x.state, now) && now < o.horizon <= U64_MAX && HintOk(o, x, now)
    ensures var y := Refreshed(o, x, now);
            && y.key == x.key && y.hash == x.hash && y.seeded == x.seeded && y.referenced == x.referenced
            && y.lastSeen == x.lastSeen && y.hint != UNKNOWN
            && o.valid(y.key, y.state, now) && o.debt(y.state, now) == o.debt(x.state, now)
            && Tells(o, y.state, now, y.hint) && (y.hint <= Millis(now) <==> o.debt(x.state, now).None?)
  {
    hide Orderly, FirstLaw, Tells, ExactHint, Millis;
    Looked(o, x.key, x.state, now, now);
    ExactIsWhole(o, x.key, x.state, now);
    LookKeepsTelling(o, x.key, x.state, now, ExactHint(o, x.state, now));
    Owed(o, x.key, x.state, now);
    if Trusted(x) {
      LookKeepsTelling(o, x.key, x.state, now, x.hint);
      TellingIsDue(o, x.key, x.state, now, x.hint);
    }
    if o.debt(x.state, now).None? { StaysWhole(o, x.key, o.look(x.state, now), now); }
  }

  /** So a slot is judged recovered only if its key owes nothing. */
  lemma RecoveredOwesNothing<S(!new)>(o: KeyOps<S>, x: Slot<S>, now: nat)
    requires Lawful(o) && o.valid(x.key, x.state, now) && now < o.horizon <= U64_MAX && HintOk(o, x, now)
    requires Refreshed(o, x, now).hint <= Millis(now)
    ensures o.debt(x.state, now).None?
  {
    hide Orderly, FirstLaw, Refreshed, Tells;
    RefreshedIsWhole(o, x, now);
  }

  lemma ExactHintOfOwing<S(!new)>(o: KeyOps<S>, s: S, now: nat)
    ensures o.debt(s, now).Some? ==> ExactHint(o, s, now) == CeilMillis(o.debt(s, now).value.until)
  {
  }

  lemma SameExactHint<S(!new)>(o: KeyOps<S>, s: S, s1: S, now: nat)
    requires o.debt(s, now) == o.debt(s1, now)
    ensures ExactHint(o, s, now) == ExactHint(o, s1, now)
  {
  }

  /** A key whole by the next millisecond, but not yet, has that millisecond as
      its exact hint. */
  lemma BoundaryIsExact<S(!new)>(o: KeyOps<S>, k: nat, s: S, now: nat, b: nat)
    requires Lawful(o) && o.valid(k, s, now) && now < b < o.horizon <= U64_MAX
    requires b == (Millis(now) + 1) * NANOS_PER_MILLI && o.debt(s, now).Some? && o.isFull(s, b)
    ensures ExactHint(o, s, now) == Millis(now) + 1
  {
    hide Orderly, FirstLaw;
    Owed(o, k, s, now);
    Ages(o, k, s, now, b);
    Owed(o, k, s, b);
    Decays(o, k, s, now, b);
    var until := o.debt(s, now).value.until;
    CeilMillisAfter(until, now);
    CeilMillisIsCeiling(until);
  }

  lemma WholeAhead<S(!new)>(o: KeyOps<S>, k: nat, s: S, now: nat, b: nat)
    requires Lawful(o) && o.valid(k, s, now) && now < b < o.horizon && o.isFull(s, b)
    ensures WholeFrom(o, o.look(s, b), now, b)
  {
    hide Orderly, FirstLaw;
    Ages(o, k, s, now, b);
    Owed(o, k, s, b);
    forall t: nat | now <= t < o.horizon && b <= t ensures o.debt(o.look(s, b), t).None? {
      Decays(o, k, s, b, t);
      Looked(o, k, s, b, t);
    }
  }

  /** `first_hint` is the exact hint, though for a fresh key it is often got
      without the exact arithmetic; and reading ahead for it costs nothing. */
  lemma FirstHintIsExact<S(!new)>(o: KeyOps<S>, k: nat, n: nat, now: nat, ideal: S)
    requires Lawful(o) && o.create(k, now).Some? && n <= U32_MAX
    requires now + NANOS_PER_MILLI < o.horizon <= U64_MAX && o.valid(k, ideal, now)
    requires o.stricter(o.acquire(o.create(k, now).value, n, now).1, ideal, now)
    ensures var (d, s) := o.acquire(o.create(k, now).value, n, now);
            var (hint, s') := FirstHint(o, s, false, n, d, now);
            && hint == ExactHint(o, s, now)
            && o.valid(k, s', now) && o.stricter(s', ideal, now) && o.debt(s', now) == o.debt(s, now)
            && Tells(o, s', now, hint)
  {
    hide Orderly, FirstLaw, WholeFrom, ExactHint, CeilMillis;
    var (d, s) := o.acquire(o.create(k, now).value, n, now);
    Fresh(o, k, now);
    Acquired(o, k, o.create(k, now).value, n, now);
    FirstOwes(o, k, n, now);
    ExactIsWhole(o, k, s, now);
    ExactHintOfWhole(o, s, now);
    if n > 0 && d.Allow? {
      var b := (Millis(now) + 1) * NANOS_PER_MILLI;
      MillisFloor(now);
      LooksAhead(o, k, n, now, b, ideal);
      var s1 := o.look(s, b);
      if o.isFull(s, b) {
        BoundaryIsExact(o, k, s, now, b);
        WholeAhead(o, k, s, now, b);
        ExactHintOfOwing(o, s, now);
      } else {
        SameExactHint(o, s, s1, now);
        ExactIsWhole(o, k, s1, now);
        Looked(o, k, s1, now, now);
        StaysStricter(o, k, s1, ideal, now, now);
        LookKeepsTelling(o, k, s1, now, ExactHint(o, s1, now));
      }
    }
  }
}
