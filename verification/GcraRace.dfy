/** `check_n_in` under every interleaving (src/gcra.rs:385-425): any number of
    threads, each carrying a reading of its own that may be older than one
    already used, each load and each weak compare-and-swap a separate step. */
module GcraRace {
  import opened Units
  import opened Gcra
  import opened Conformance

  /** Where a thread is in the retry loop. */
  datatype Thread =
    | Idle
    | Asked(n: nat, now: nat)                   // about to load the word
    | Judged(n: nat, now: nat, current: nat)    // about to compare-and-swap

  datatype State = State(word: nat, threads: map<nat, Thread>, log: seq<Admission>)

  datatype Action =
    | Call(tid: nat, n: nat, now: nat)
    | Load(tid: nat)
    | Swap(tid: nat, spurious: bool)
    | Restore(until: nat)

  /** A call that has returned in this step. */
  datatype Return = Return(n: nat, now: nat, decision: Decision)

  function ThreadOf(s: State, tid: nat): Thread {
    if tid in s.threads then s.threads[tid] else Idle
  }

  /** The request needs the loop: it is not decided before the word is read. */
  predicate Loops(p: Params, n: nat) { n > 0 && !Closed(p) && n - 1 <= p.tolerance }

  predicate Fits(p: Params, current: nat, n: nat, now: nat)
    requires n > 0 && Open(p)
  {
    var iv := Iv(p, Clamp64(now));
    Clamp64(Max(current, iv) + (n - 1)) <= Clamp64(iv + p.tolerance)
  }

  function Step(p: Params, s: State, a: Action): (State, Option<Return>)
    requires Open(p)
  {
    match a
    case Call(tid, n, now) =>
      if !ThreadOf(s, tid).Idle? then (s, None)
      else if !Loops(p, n) then
        (s, Some(Return(n, now, if n == 0 then Allow else Deny(DURATION_MAX))))
      else (s.(threads := s.threads[tid := Asked(n, now)]), None)
    case Load(tid) =>
      (match ThreadOf(s, tid)
       case Asked(n, now) =>
         if !Loops(p, n) then (s, None)
         else if Fits(p, s.word, n, now) then
           (s.(threads := s.threads[tid := Judged(n, now, s.word)]), None)
         else
           var iv := Iv(p, Clamp64(now));
           var ready := Clamp64(Max(s.word, iv) + (n - 1)) - p.tolerance;
           (s.(threads := s.threads[tid := Idle]),
            Some(Return(n, now, Deny(Max(SatSub(NanosAt(p, ready), Clamp64(now)), 1)))))
       case _ => (s, None))
    case Swap(tid, spurious) =>
      (match ThreadOf(s, tid)
       case Judged(n, now, current) =>
         if spurious || s.word != current then
           (s.(threads := s.threads[tid := Asked(n, now)]), None)
         else
           var iv := Iv(p, Clamp64(now));
           (State(Clamp64(Max(current, iv) + n), s.threads[tid := Idle],
                  s.log + [Admission(now, iv, n)]),
            Some(Return(n, now, Allow)))
       case _ => (s, None))
    case Restore(until) =>
      (s.(word := RestoreUntil(p, s.word, until)), None)
  }

  function Run(p: Params, s: State, actions: seq<Action>): State
    requires Open(p)
  {
    if actions == [] then s
    else Step(p, Run(p, s, actions[..|actions| - 1]), actions[|actions| - 1]).0
  }

  /** A fresh key: the whole burst, no thread inside. */
  const Fresh := State(0, map[], [])

  /** Readings far enough below the `u64` ceiling that no addition saturates. */
  ghost predicate BelowCeiling(p: Params, actions: seq<Action>)
    requires Open(p)
  {
    forall a :: a in actions && a.Call? ==> a.now <= U64_MAX && Iv(p, a.now) + p.tolerance + 1 <= U64_MAX
  }

  ghost predicate ThreadOk(p: Params, t: Thread)
    requires Open(p)
  {
    !t.Idle? ==> Loops(p, t.n) && t.now <= U64_MAX && Iv(p, t.now) + p.tolerance + 1 <= U64_MAX &&
                 (t.Judged? ==> Fits(p, t.current, t.n, t.now))
  }

  ghost predicate Inv(p: Params, s: State)
    requires Open(p)
  {
    && (forall tid :: tid in s.threads ==> ThreadOk(p, s.threads[tid]))
    && (forall e :: e in s.log ==> e.at <= U64_MAX && e.iv == Iv(p, e.at))
    && Conforms(s.log, s.word, p.tolerance + 1)
  }

  /** Each step keeps the invariant and never moves the word back. */
  lemma StepKeepsInv(p: Params, s: State, a: Action)
    requires Open(p) && Inv(p, s) && BelowCeiling(p, [a])
    ensures Inv(p, Step(p, s, a).0)
    ensures s.word <= Step(p, s, a).0.word
  {
    var s' := Step(p, s, a).0;
    match a
    case Call(tid, n, now) =>
      assert a in [a];
    case Load(tid) =>
    case Swap(tid, spurious) =>
      if s'.log != s.log {
        var t := s.threads[tid];
        AdmitKeepsConformance(s.log, s.word, p.tolerance + 1, Admission(t.now, Iv(p, t.now), t.n));
      }
    case Restore(until) =>
      RaiseKeepsConformance(s.log, s.word, s'.word, p.tolerance + 1);
  }

  lemma {:induction false} RunKeepsInv(p: Params, actions: seq<Action>)
    requires Open(p) && BelowCeiling(p, actions)
    ensures Inv(p, Run(p, Fresh, actions))
  {
    if actions == [] {
      TotalOfEmpty([], 0, p.tolerance + 1);
    } else {
      var init, last := actions[..|actions| - 1], actions[|actions| - 1];
      assert last in actions;
      RunKeepsInv(p, init);
      StepKeepsInv(p, Run(p, Fresh, init), last);
    }
  }

  /** Safety over every run: whatever the interleaving and however stale the
      readings, the units admitted on readings in `[from, to]` are at most the
      burst and the intervals that begin between the two instants. */
  lemma NoStretchOverAdmits(p: Params, actions: seq<Action>, from: nat, to: nat)
    requires Open(p) && BelowCeiling(p, actions)
    requires from <= to
    ensures TotalRead(Run(p, Fresh, actions).log, from, to) <= p.tolerance + 1 + Iv(p, to) - Iv(p, from)
  {
    RunKeepsInv(p, actions);
    var log := Run(p, Fresh, actions).log;
    IvMonotone(p, from, to);
    forall e | e in log && from <= e.at <= to
      ensures Iv(p, from) <= e.iv <= Iv(p, to)
    {
      IvMonotone(p, from, e.at);
      IvMonotone(p, e.at, to);
    }
    ReadsLieInIntervals(log, from, to, Iv(p, from), Iv(p, to));
  }

  /** The word is monotone over whole runs. */
  lemma {:induction false} WordNeverDecreases(p: Params, actions: seq<Action>, k: nat)
    requires Open(p) && BelowCeiling(p, actions) && k <= |actions|
    ensures Run(p, Fresh, actions[..k]).word <= Run(p, Fresh, actions).word
  {
    if k == |actions| {
      assert actions[..k] == actions;
    } else {
      var init, last := actions[..|actions| - 1], actions[|actions| - 1];
      assert last in actions;
      assert init[..k] == actions[..k];
      WordNeverDecreases(p, init, k);
      RunKeepsInv(p, init);
      StepKeepsInv(p, Run(p, Fresh, init), last);
    }
  }

  /** A bucket restored to a deadline, at whatever point of a run, is not whole before
      it. */
  lemma RestoreLasts(p: Params, actions: seq<Action>, k: nat, t: nat)
    requires Open(p) && BelowCeiling(p, actions) && k < |actions| && actions[k].Restore?
    requires t < actions[k].until <= U64_MAX
    ensures !IsFull(p, Run(p, Fresh, actions).word, t)
  {
    hide RestoreUntil;
    var init := actions[..k + 1];
    assert init[..|init| - 1] == actions[..k];
    var before := Run(p, Fresh, actions[..k]).word;
    var w := RestoreUntil(p, before, actions[k].until);
    assert Run(p, Fresh, init).word == w;
    WordNeverDecreases(p, actions, k + 1);
    RestoreIsLeast(p, before, actions[k].until);
    IntervalBegunIff(p, w, t);
  }

  /** Every call takes effect at one instant: the step that returns it decides,
      and leaves the word, exactly as the sequential check on the word as it
      stands at that step. */
  lemma CallsAreAtomic(p: Params, s: State, a: Action)
    requires Open(p) && Inv(p, s)
    ensures var (s', r) := Step(p, s, a);
            r.Some? ==> CheckN(p, s.word, r.value.n, r.value.now) == (r.value.decision, s'.word)
    ensures var (s', r) := Step(p, s, a);
            r.None? ==> s'.log == s.log && (a.Restore? || s'.word == s.word)
  {
  }

  // ------------------------------------------------------------- the ceiling

  /** Every call reads one of `readings`. */
  ghost predicate ReadsWithin(actions: seq<Action>, readings: set<nat>) {
    forall a :: a in actions && a.Call? ==> a.now in readings
  }

  /** The bound on every stretch, in every run of calls on `readings`. */
  ghost predicate Bounded(p: Params, readings: set<nat>)
    requires Open(p)
  {
    forall actions: seq<Action>, from: nat, to: nat
      {:trigger TotalRead(Run(p, Fresh, actions).log, from, to)} ::
      ReadsWithin(actions, readings) && from <= to ==>
        TotalRead(Run(p, Fresh, actions).log, from, to) <= p.tolerance + 1 + Iv(p, to) - Iv(p, from)
  }

  /** `k` calls for one unit on the same reading, by one thread. */
  function Rounds(now: nat, k: nat): seq<Action> {
    if k == 0 then [] else Rounds(now, k - 1) + [Call(0, 1, now), Load(0), Swap(0, false)]
  }

  lemma RunOne(p: Params, s: State, actions: seq<Action>, a: Action)
    requires Open(p)
    ensures Run(p, s, actions + [a]) == Step(p, Run(p, s, actions), a).0
  {
    assert (actions + [a])[..|actions|] == actions;
  }

  lemma RunThree(p: Params, s: State, actions: seq<Action>, a: Action, b: Action, c: Action)
    requires Open(p)
    ensures Run(p, s, actions + [a, b, c]) == Step(p, Step(p, Step(p, Run(p, s, actions), a).0, b).0, c).0
  {
    hide Step;
    RunOne(p, s, actions, a);
    RunOne(p, s, actions + [a], b);
    RunOne(p, s, actions + [a] + [b], c);
    assert actions + [a, b, c] == actions + [a] + [b] + [c];
  }

  /** With the ceiling reached, a word of any value admits one more unit. */
  lemma RoundAdmits(p: Params, s: State, now: nat)
    requires Open(p) && now <= U64_MAX && Iv(p, now) + p.tolerance + 1 > U64_MAX
    requires ThreadOf(s, 0).Idle? && s.word <= U64_MAX
    ensures var s' := Step(p, Step(p, Step(p, s, Call(0, 1, now)).0, Load(0)).0, Swap(0, false)).0;
            s'.log == s.log + [Admission(now, Iv(p, now), 1)] && ThreadOf(s', 0).Idle? && s'.word <= U64_MAX
  {
    hide Iv, NanosAt;
    OpenIsNotClosed(p);
  }

  lemma {:induction false} RoundsAdmitAll(p: Params, now: nat, k: nat)
    requires Open(p) && now <= U64_MAX && Iv(p, now) + p.tolerance + 1 > U64_MAX
    ensures var s := Run(p, Fresh, Rounds(now, k));
            ThreadOf(s, 0).Idle? && s.word <= U64_MAX && TotalRead(s.log, now, now) == k
    ensures ReadsWithin(Rounds(now, k), {now})
    decreases k
  {
    hide Iv, Step;
    if k > 0 {
      RoundsAdmitAll(p, now, k - 1);
      var s := Run(p, Fresh, Rounds(now, k - 1));
      RunThree(p, Fresh, Rounds(now, k - 1), Call(0, 1, now), Load(0), Swap(0, false));
      RoundAdmits(p, s, now);
      TotalAppend(s.log, Admission(now, Iv(p, now), 1), now, now);
    }
  }

  /** Exactly when the bound holds: over all runs of calls on these readings, if
      and only if at each of them the end of the burst is representable. At any
      other the sums saturate, every request for a unit is granted, and one
      thread alone takes more than the burst on a single reading. */
  lemma BoundedIffBelowCeiling(p: Params, readings: set<nat>)
    requires Open(p) && forall now :: now in readings ==> now <= U64_MAX
    ensures Bounded(p, readings) <==> forall now :: now in readings ==> Iv(p, now) + p.tolerance + 1 <= U64_MAX
  {
    hide Iv, Run;
    if forall now :: now in readings ==> Iv(p, now) + p.tolerance + 1 <= U64_MAX {
      forall actions: seq<Action>, from: nat, to: nat | ReadsWithin(actions, readings) && from <= to
        ensures TotalRead(Run(p, Fresh, actions).log, from, to) <= p.tolerance + 1 + Iv(p, to) - Iv(p, from)
      {
        NoStretchOverAdmits(p, actions, from, to);
      }
    } else {
      var now :| now in readings && Iv(p, now) + p.tolerance + 1 > U64_MAX;
      var actions := Rounds(now, p.tolerance + 2);
      RoundsAdmitAll(p, now, p.tolerance + 2);
      assert ReadsWithin(actions, readings);
      assert TotalRead(Run(p, Fresh, actions).log, now, now) > p.tolerance + 1 + Iv(p, now) - Iv(p, now);
    }
  }
}
