/** Whole runs of the sliding log against the full history of admissions it
    stands for: the rolling window bound, and exactly when a stale reading can
    break it. */
module SlidingLogRuns {
  import opened Units
  import opened SlidingLog

  /** `units` admitted at the instant `at`. */
  datatype Stamp = Stamp(at: nat, units: nat)

  /** Units stamped in the window of one period from `x`. */
  function Rolling(h: seq<Stamp>, x: nat, period: nat): nat {
    if h == [] then 0
    else
      var last := h[|h| - 1];
      Rolling(h[..|h| - 1], x, period) + if x <= last.at < x + period then last.units else 0
  }

  /** Units less than a period old at `t`. */
  function Live(h: seq<Stamp>, t: nat, period: nat): nat {
    if h == [] then 0
    else
      var last := h[|h| - 1];
      Live(h[..|h| - 1], t, period) + if last.at + period > t then last.units else 0
  }

  /** No rolling window of one period holds more than the limit. */
  ghost predicate RollingBound(q: Quota, h: seq<Stamp>) {
    forall x: nat :: Rolling(h, x, q.period) <= q.limit
  }

  lemma Append(h: seq<Stamp>, s: Stamp, x: nat, t: nat, period: nat)
    ensures Rolling(h + [s], x, period) == Rolling(h, x, period) + if x <= s.at < x + period then s.units else 0
    ensures Live(h + [s], t, period) == Live(h, t, period) + if s.at + period > t then s.units else 0
  {
    assert (h + [s])[..|h|] == h;
  }

  lemma {:induction false} RollingConcat(g: seq<Stamp>, h: seq<Stamp>, x: nat, period: nat)
    ensures Rolling(g + h, x, period) == Rolling(g, x, period) + Rolling(h, x, period)
  {
    if h == [] {
      assert g + h == g;
    } else {
      var init, last := h[..|h| - 1], h[|h| - 1];
      assert g + h == (g + init) + [last];
      assert h == init + [last];
      Append(g + init, last, x, 0, period);
      RollingConcat(g, init, x, period);
    }
  }

  /** What a window ending after `e` holds of the past is still live at `e`. */
  lemma {:induction false} RollingAtMostLive(h: seq<Stamp>, x: nat, e: nat, period: nat)
    requires e < x + period
    ensures Rolling(h, x, period) <= Live(h, e, period)
  {
    if h != [] { RollingAtMostLive(h[..|h| - 1], x, e, period); }
  }

  /** And conversely for the window that ends at `e`. */
  lemma {:induction false} LiveAtMostRolling(h: seq<Stamp>, x: nat, e: nat, period: nat)
    requires forall s :: s in h ==> s.at <= e
    requires x <= e < x + period && (x == 0 || x + period == e + 1)
    ensures Live(h, e, period) <= Rolling(h, x, period)
  {
    if h != [] {
      assert h[|h| - 1] in h;
      LiveAtMostRolling(h[..|h| - 1], x, e, period);
    }
  }

  lemma {:induction false} LiveConcat(g: seq<Stamp>, h: seq<Stamp>, t: nat, period: nat)
    ensures Live(g + h, t, period) == Live(g, t, period) + Live(h, t, period)
  {
    if h == [] {
      assert g + h == g;
    } else {
      var init, last := h[..|h| - 1], h[|h| - 1];
      assert g + h == (g + init) + [last];
      assert h == init + [last];
      Append(g + init, last, 0, t, period);
      LiveConcat(g, init, t, period);
    }
  }

  /** Everything aged counts nothing; everything fresh at `e` counted as much
      before. */
  lemma {:induction false} AgedCountNothing(h: seq<Stamp>, t: nat, period: nat)
    requires forall u :: u in h ==> u.at + period <= t
    ensures Live(h, t, period) == 0
  {
    if h != [] {
      assert h[|h| - 1] in h;
      assert forall u :: u in h[..|h| - 1] ==> u in h;
      AgedCountNothing(h[..|h| - 1], t, period);
    }
  }

  lemma {:induction false} FreshCountAlike(h: seq<Stamp>, t: nat, e: nat, period: nat)
    requires t <= e && forall u :: u in h ==> u.at + period > e
    ensures Live(h, t, period) == Live(h, e, period)
  {
    if h != [] {
      assert h[|h| - 1] in h;
      assert forall u :: u in h[..|h| - 1] ==> u in h;
      FreshCountAlike(h[..|h| - 1], t, e, period);
    }
  }

  // ------------------------------------------------------------------- runs

  datatype Op = Ask(n: nat, now: nat) | Look(now: nat)

  /** The log, every admission it ever made, and the greatest reading that has
      pruned it without being recorded in it (a denial's or a peek's). */
  datatype State = State(log: Log, history: seq<Stamp>, seen: nat)

  const Fresh := State(Empty, [], 0)

  function Step(q: Quota, s: State, op: Op): State {
    match op
    case Look(now) => State(Peek(q, s.log, now).2, s.history, Max(s.seen, now))
    case Ask(n, now) =>
      var (d, log) := Acquire(q, s.log, n, now);
      if n == 0 || n > q.limit then s.(log := log)
      else if d == Allow then State(log, s.history + [Stamp(Effective(s.log, Clamp64(now)), n)], s.seen)
      else State(log, s.history, Max(s.seen, now))
  }

  function After(q: Quota, ops: seq<Op>): State {
    if ops == [] then Fresh else Step(q, After(q, ops[..|ops| - 1]), ops[|ops| - 1])
  }

  function Requested(ops: seq<Op>): nat {
    if ops == [] then 0
    else Requested(ops[..|ops| - 1]) + if ops[|ops| - 1].Ask? then ops[|ops| - 1].n else 0
  }

  /** The latest instant stamped. */
  function Latest(h: seq<Stamp>): nat {
    if h == [] then 0 else Max(Latest(h[..|h| - 1]), h[|h| - 1].at)
  }

  /** No instant past this one has pruned the log. */
  function Reach(s: State): nat { Max(s.seen, Latest(s.history)) }

  /** A unit aged by `until` lies within a period of `e`. */
  ghost predicate AgedNear(h: seq<Stamp>, until: nat, e: nat, period: nat) {
    exists u :: u in h && u.at + period <= until && u.at < e + period && e < u.at + period
  }

  /** Readings may come in any order, late ones included, as long as none is
      judged within a period of a unit that may have been pruned by then. */
  ghost predicate Careful(q: Quota, ops: seq<Op>) {
    ops == [] ||
    (var (init, last) := (ops[..|ops| - 1], ops[|ops| - 1]);
     var s := After(q, init);
     && Careful(q, init) && last.now < U64_MAX
     && (last.Ask? ==> !AgedNear(s.history, Reach(s), Effective(s.log, last.now), q.period)))
  }

  /** A request never carries a reading older than one that has already pruned
      the log. Requests may overtake each other's admissions freely. */
  ghost predicate Timely(q: Quota, ops: seq<Op>) {
    ops == [] ||
    (var last := ops[|ops| - 1];
     Timely(q, ops[..|ops| - 1]) && last.now < U64_MAX &&
     (last.Ask? ==> After(q, ops[..|ops| - 1]).seen <= last.now))
  }

  // -------------------------------------------------- what the log stands for

  /** The runs and totals stand for `h`, unit by unit, at every instant. */
  ghost predicate StandsFor(q: Quota, l: Log, h: seq<Stamp>) {
    forall t :: 0 <= t < U64_MAX ==> InWindowAt(l, t, q.period) == Live(h, t, q.period)
  }

  ghost predicate Rising(h: seq<Stamp>) {
    forall i, j :: 0 <= i < j < |h| ==> h[i].at <= h[j].at
  }

  ghost predicate Shape(q: Quota, l: Log, live: seq<Stamp>) {
    && WellFormed(l) && StandsFor(q, l, live) && Rising(live)
    && (l.runs == [] <==> live == [])
    && (l.runs != [] ==> Back(l).at == live[|live| - 1].at)
  }

  /** The history is what has been pruned, aged by now, and what the log holds. */
  ghost predicate Parted(q: Quota, s: State, pruned: seq<Stamp>, live: seq<Stamp>) {
    && s.history == pruned + live && Shape(q, s.log, live)
    && (forall u :: u in pruned ==> u.at + q.period <= Reach(s))
    && Reach(s) < U64_MAX && RollingBound(q, s.history)
    && (forall u :: u in s.history ==> u.units > 0)
  }

  // ----------------------------------------------------------------- pruning

  /** How many stamps, from the front, have aged out by `e`. */
  function AgedFront(h: seq<Stamp>, e: nat, period: nat): (k: nat)
    ensures k <= |h|
    ensures forall i :: 0 <= i < k ==> h[i].at + period <= e
    ensures k < |h| ==> h[k].at + period > e
  {
    if h == [] || h[0].at + period > e then 0 else 1 + AgedFront(h[1..], e, period)
  }

  lemma RisingParts(h: seq<Stamp>, e: nat, period: nat)
    requires Rising(h)
    ensures var k := AgedFront(h, e, period);
            && h == h[..k] + h[k..] && Rising(h[k..])
            && (forall u :: u in h[..k] ==> u.at + period <= e)
            && (forall u :: u in h[k..] ==> u.at + period > e)
  {
    hide AgedFront;
    var k := AgedFront(h, e, period);
    forall u | u in h[k..] ensures u.at + period > e {
      var i :| 0 <= i < |h| - k && h[k..][i] == u;
      assert h[k].at <= h[k + i].at;
    }
  }

  /** A log with nothing aged at `e` counts as much at every earlier instant. */
  lemma UnagedCountAlike(l: Log, t: nat, e: nat, period: nat)
    requires WellFormed(l) && t <= e
    ensures InWindowAt(Expire(l, e, period), t, period) == InWindowAt(Expire(l, e, period), e, period)
  {
    CutRises(Expire(l, e, period).runs, t, e, period);
    CutDropped(l.runs, Cut(l.runs, e, period), e, period);
  }

  lemma PrunedStandsFor(q: Quota, l: Log, gone: seq<Stamp>, kept: seq<Stamp>, e: nat)
    requires WellFormed(l) && StandsFor(q, l, gone + kept) && e < U64_MAX
    requires forall u :: u in gone ==> u.at + q.period <= e
    requires forall u :: u in kept ==> u.at + q.period > e
    ensures StandsFor(q, Expire(l, e, q.period), kept)
  {
    hide Expire, InWindowAt;
    var l' := Expire(l, e, q.period);
    forall t | 0 <= t < U64_MAX ensures InWindowAt(l', t, q.period) == Live(kept, t, q.period) {
      var m := Max(t, e);
      ExpireKeepsLater(l, e, m, q.period);
      LiveConcat(gone, kept, m, q.period);
      AgedCountNothing(gone, m, q.period);
      if t < e {
        UnagedCountAlike(l, t, e, q.period);
        FreshCountAlike(kept, t, e, q.period);
      }
    }
  }

  lemma {:induction false} FreshCountSomething(h: seq<Stamp>, e: nat, period: nat)
    requires forall u :: u in h ==> u.at + period > e && u.units > 0
    ensures Live(h, e, period) == 0 ==> h == []
  {
    if h != [] { assert h[|h| - 1] in h; }
  }

  /** Pruning at an instant the log has reached parts what it stands for. */
  lemma PruneParts(q: Quota, l: Log, live: seq<Stamp>, e: nat) returns (gone: seq<Stamp>, kept: seq<Stamp>)
    requires Shape(q, l, live) && e < U64_MAX && (forall u :: u in live ==> u.units > 0)
    ensures live == gone + kept && Shape(q, Expire(l, e, q.period), kept)
    ensures forall u :: u in gone ==> u.at + q.period <= e
    ensures forall u :: u in kept ==> u.at + q.period > e
  {
    hide Expire, InWindowAt, AgedFront;
    var k := AgedFront(live, e, q.period);
    RisingParts(live, e, q.period);
    gone, kept := live[..k], live[k..];
    PrunedStandsFor(q, l, gone, kept, e);
    ExpireKeepsShape(l, e, q.period);
    ExpireKeepsBack(l, e, q.period);
    FreshCountSomething(kept, e, q.period);
    var l' := Expire(l, e, q.period);
    WindowEmptyIff(l, e, q.period);
    ExpireKeepsLater(l, e, e, q.period);
    assert InWindowAt(l', e, q.period) == Live(kept, e, q.period);
  }

  // --------------------------------------------------------------- admitting

  lemma RecordStandsFor(q: Quota, l: Log, h: seq<Stamp>, n: nat, e: nat)
    requires WellFormed(l) && StandsFor(q, l, h) && n > 0 && Total(l) + n <= U64_MAX
    requires l.runs != [] ==> Back(l).at <= e
    ensures StandsFor(q, Record(l, n, e), h + [Stamp(e, n)])
  {
    hide InWindowAt, Record, WellFormed;
    forall t | 0 <= t < U64_MAX
      ensures InWindowAt(Record(l, n, e), t, q.period) == Live(h + [Stamp(e, n)], t, q.period)
    {
      RecordAdds(l, n, e, t, q.period);
      Append(h, Stamp(e, n), 0, t, q.period);
    }
  }

  lemma RecordShapes(q: Quota, l: Log, h: seq<Stamp>, n: nat, e: nat)
    requires Shape(q, l, h) && n > 0 && Total(l) + n <= U64_MAX && (l.runs != [] ==> Back(l).at <= e)
    ensures Shape(q, Record(l, n, e), h + [Stamp(e, n)])
  {
    hide InWindowAt, Record, WellFormed;
    RecordStandsFor(q, l, h, n, e);
    RecordKeepsShape(l, n, e);
  }

  /** Some pruned units lie within a period of `e`. */
  ghost predicate Near(pruned: seq<Stamp>, e: nat, period: nat) {
    exists s :: s in pruned && s.units > 0 && s.at < e + period && e < s.at + period
  }

  lemma {:induction false} FarUnitsCountNothing(pruned: seq<Stamp>, e: nat, x: nat, period: nat)
    requires !Near(pruned, e, period) && x <= e < x + period
    ensures Rolling(pruned, x, period) == 0
  {
    if pruned != [] {
      assert pruned[|pruned| - 1] in pruned;
      assert forall s :: s in pruned[..|pruned| - 1] ==> s in pruned;
      FarUnitsCountNothing(pruned[..|pruned| - 1], e, x, period);
    }
  }

  /** Units that fit beside what is live, with nothing pruned near, fit every
      window they fall in. */
  lemma AdmitKeepsRollingBound(q: Quota, pruned: seq<Stamp>, live: seq<Stamp>, e: nat, n: nat)
    requires RollingBound(q, pruned + live) && Live(live, e, q.period) + n <= q.limit && !Near(pruned, e, q.period)
    ensures RollingBound(q, pruned + live + [Stamp(e, n)])
  {
    forall x: nat
      ensures Rolling(pruned + live + [Stamp(e, n)], x, q.period) <= q.limit
    {
      Append(pruned + live, Stamp(e, n), x, 0, q.period);
      if x <= e < x + q.period {
        RollingConcat(pruned, live, x, q.period);
        FarUnitsCountNothing(pruned, e, x, q.period);
        RollingAtMostLive(live, x, e, q.period);
      }
    }
  }

  lemma {:induction false} LatestIsLatest(h: seq<Stamp>, u: Stamp)
    requires u in h
    ensures u.at <= Latest(h)
  {
    if u != h[|h| - 1] { LatestIsLatest(h[..|h| - 1], u); }
  }

  lemma LatestAppend(h: seq<Stamp>, u: Stamp)
    ensures Latest(h + [u]) == Max(Latest(h), u.at)
  {
    assert (h + [u])[..|h|] == h;
  }

  lemma BackIsStamped(q: Quota, s: State, pruned: seq<Stamp>, live: seq<Stamp>)
    requires Parted(q, s, pruned, live) && s.log.runs != []
    ensures Back(s.log).at <= Latest(s.history)
  {
    hide StandsFor, WellFormed, RollingBound;
    var u := live[|live| - 1];
    assert u in s.history;
    LatestIsLatest(s.history, u);
  }

  /** The instant a reading counts as is within reach, or is the reading. */
  lemma EffectiveWithinReach(q: Quota, s: State, pruned: seq<Stamp>, live: seq<Stamp>, now: nat)
    requires Parted(q, s, pruned, live)
    ensures Effective(s.log, now) <= Max(Reach(s), now) && Effective(s.log, now) >= now
    ensures s.log.runs != [] ==> Back(s.log).at <= Effective(s.log, now)
  {
    hide Shape, RollingBound;
    if s.log.runs != [] { BackIsStamped(q, s, pruned, live); }
  }

  /** The log after a reading that was judged, whatever the answer. */
  lemma PruneKeepsParted(q: Quota, s: State, pruned: seq<Stamp>, live: seq<Stamp>, now: nat)
    returns (gone: seq<Stamp>, kept: seq<Stamp>)
    requires Parted(q, s, pruned, live) && now < U64_MAX
    ensures var e := Effective(s.log, now);
            && live == gone + kept && Shape(q, Expire(s.log, e, q.period), kept)
            && (forall u :: u in gone ==> u.at + q.period <= e) && (forall u :: u in kept ==> u.at + q.period > e)
            && Parted(q, State(Expire(s.log, e, q.period), s.history, Max(s.seen, now)), pruned + gone, kept)
  {
    hide Expire, Shape, RollingBound;
    EffectiveWithinReach(q, s, pruned, live, now);
    gone, kept := PruneParts(q, s.log, live, Effective(s.log, now));
    assert pruned + live == (pruned + gone) + kept;
  }

  lemma FarFromPruned(q: Quota, s: State, pruned: seq<Stamp>, gone: seq<Stamp>, kept: seq<Stamp>, e: nat)
    requires Parted(q, s, pruned, gone + kept) && (forall u :: u in gone ==> u.at + q.period <= e)
    requires !AgedNear(s.history, Reach(s), e, q.period)
    ensures !Near(pruned + gone, e, q.period)
  {
    hide Shape, RollingBound;
    forall u | u in pruned + gone ensures !(u.at < e + q.period && e < u.at + q.period) {
      if u in pruned { assert u in s.history; }
    }
  }

  lemma AdmittedIsParted(q: Quota, s: State, seen: nat, pruned: seq<Stamp>, kept: seq<Stamp>, log: Log, e: nat, n: nat)
    requires Parted(q, s, pruned, kept) && s.seen <= Max(seen, e) && seen <= s.seen && e < U64_MAX && n > 0
    requires Shape(q, log, kept + [Stamp(e, n)]) && !Near(pruned, e, q.period) && Live(kept, e, q.period) + n <= q.limit
    ensures Parted(q, State(log, s.history + [Stamp(e, n)], seen), pruned, kept + [Stamp(e, n)])
  {
    hide Shape, RollingBound, Near;
    AdmitKeepsRollingBound(q, pruned, kept, e, n);
    LatestAppend(s.history, Stamp(e, n));
    assert s.history + [Stamp(e, n)] == pruned + (kept + [Stamp(e, n)]);
  }

  lemma StepAdmits(q: Quota, s: State, n: nat, now: nat)
    requires 0 < n <= q.limit && q.period > 0 && now < U64_MAX && Acquire(q, s.log, n, now).0 == Allow
    ensures var e := Effective(s.log, now);
            Step(q, s, Ask(n, now)) ==
              State(Record(Expire(s.log, e, q.period), n, e), s.history + [Stamp(e, n)], s.seen)
  {
    hide Expire, Record, ExpireAt;
  }

  lemma LiveNow(q: Quota, l: Log, gone: seq<Stamp>, kept: seq<Stamp>, e: nat)
    requires StandsFor(q, l, gone + kept) && e < U64_MAX && (forall u :: u in gone ==> u.at + q.period <= e)
    ensures Live(kept, e, q.period) == InWindowAt(l, e, q.period)
  {
    hide InWindowAt;
    LiveConcat(gone, kept, e, q.period);
    AgedCountNothing(gone, e, q.period);
  }

  lemma PartedIsWellFormed(q: Quota, s: State, pruned: seq<Stamp>, live: seq<Stamp>)
    requires Parted(q, s, pruned, live)
    ensures WellFormed(s.log) && RollingBound(q, s.history)
  {
    hide RollingBound;
  }

  lemma AdmitKeepsParted(q: Quota, s: State, pruned: seq<Stamp>, live: seq<Stamp>, n: nat, now: nat)
    returns (pruned': seq<Stamp>, live': seq<Stamp>)
    requires q.period > 0 && Parted(q, s, pruned, live) && now < U64_MAX && 0 < n <= q.limit
             && Total(s.log) + n <= U64_MAX
    requires !AgedNear(s.history, Reach(s), Effective(s.log, now), q.period)
    requires Acquire(q, s.log, n, now).0 == Allow
    ensures Parted(q, Step(q, s, Ask(n, now)), pruned', live')
    ensures exists kept :: live' == kept + [Stamp(Effective(s.log, now), n)] && pruned' + kept == pruned + live
                           && (forall u :: u in kept ==> u in live)
  {
    var e := Effective(s.log, now);
    StepAdmits(q, s, n, now);
    EffectiveWithinReach(q, s, pruned, live, now);
    PartedIsWellFormed(q, s, pruned, live);
    var gone, kept := PruneKeepsParted(q, s, pruned, live, now);
    LiveNow(q, s.log, gone, kept, e);
    FarFromPruned(q, s, pruned, gone, kept, e);
    hide Expire, InWindowAt, Record, RollingBound, Shape, Step, Acquire, WellFormed, Parted, AgedNear, Near;
    AdmittedIff(q, s.log, n, now);
    var l := Expire(s.log, e, q.period);
    ExpireKeepsShape(s.log, e, q.period);
    ExpireKeepsBack(s.log, e, q.period);
    RecordShapes(q, l, kept, n, e);
    pruned', live' := pruned + gone, kept + [Stamp(e, n)];
    AdmittedIsParted(q, State(l, s.history, Max(s.seen, now)), s.seen, pruned', kept, Record(l, n, e), e, n);
    assert pruned' + kept == pruned + live;
  }

  // -------------------------------------------------------------- whole runs

  /** A step that admits nothing prunes, or does nothing at all. */
  lemma StepPrunes(q: Quota, s: State, op: Op)
    requires q.limit > 0 && q.period > 0 && op.now < U64_MAX
    requires !(op.Ask? && 0 < op.n <= q.limit && Acquire(q, s.log, op.n, op.now).0 == Allow)
    ensures var s' := Step(q, s, op);
            || s' == s
            || s' == State(Expire(s.log, Effective(s.log, op.now), q.period), s.history, Max(s.seen, op.now))
    ensures op.Look? ==>
            Step(q, s, op) == State(Expire(s.log, Effective(s.log, op.now), q.period), s.history, Max(s.seen, op.now))
  {
    hide Expire, Record, ExpireAt;
  }

  lemma StepKeepsParted(q: Quota, s: State, pruned: seq<Stamp>, live: seq<Stamp>, op: Op)
    returns (pruned': seq<Stamp>, live': seq<Stamp>)
    requires q.limit > 0 && q.period > 0 && Parted(q, s, pruned, live) && op.now < U64_MAX
    requires op.Ask? ==> Total(s.log) + op.n <= U64_MAX
    requires op.Ask? ==> !AgedNear(s.history, Reach(s), Effective(s.log, op.now), q.period)
    ensures Parted(q, Step(q, s, op), pruned', live')
  {
    hide Parted, Step, Acquire, AgedNear;
    if op.Ask? && 0 < op.n <= q.limit && Acquire(q, s.log, op.n, op.now).0 == Allow {
      pruned', live' := AdmitKeepsParted(q, s, pruned, live, op.n, op.now);
    } else {
      StepPrunes(q, s, op);
      if Step(q, s, op) == s {
        pruned', live' := pruned, live;
      } else {
        var gone, kept := PruneKeepsParted(q, s, pruned, live, op.now);
        pruned', live' := pruned + gone, kept;
      }
    }
  }

  lemma TotalGrows(q: Quota, s: State, op: Op)
    requires WellFormed(s.log) && Total(s.log) + (if op.Ask? then op.n else 0) <= U64_MAX
    requires q.limit > 0 && q.period > 0
    ensures Total(Step(q, s, op).log) <= Total(s.log) + if op.Ask? then op.n else 0
  {
    var e := Effective(s.log, Clamp64(op.now));
    ExpireKeepsShape(s.log, e, q.period);
    ExpireKeepsBack(s.log, e, q.period);
    if op.Ask? && 0 < op.n <= q.limit {
      RecordKeepsShape(Expire(s.log, e, q.period), op.n, e);
    }
  }

  lemma EmptyHoldsNothing(l: Log, t: nat, period: nat)
    requires l.runs == []
    ensures InWindowAt(l, t, period) == 0
  {
  }

  lemma FreshIsParted(q: Quota)
    ensures Parted(q, Fresh, [], [])
  {
    forall t | 0 <= t < U64_MAX ensures InWindowAt(Empty, t, q.period) == 0 {
      EmptyHoldsNothing(Empty, t, q.period);
    }
  }

  lemma {:induction false} RunIsParted(q: Quota, ops: seq<Op>) returns (pruned: seq<Stamp>, live: seq<Stamp>)
    requires q.limit > 0 && q.period > 0 && Careful(q, ops) && Requested(ops) <= U64_MAX
    ensures Parted(q, After(q, ops), pruned, live) && Total(After(q, ops).log) <= Requested(ops)
  {
    hide Parted, Step, AgedNear;
    if ops == [] {
      FreshIsParted(q);
      pruned, live := [], [];
    } else {
      var init, last := ops[..|ops| - 1], ops[|ops| - 1];
      pruned, live := RunIsParted(q, init);
      var s := After(q, init);
      PartedIsWellFormed(q, s, pruned, live);
      TotalGrows(q, s, last);
      pruned, live := StepKeepsParted(q, s, pruned, live, last);
    }
  }

  /** The exact algorithm: over every careful run, with readings in any order, no
      rolling window of one period ever holds more than the limit, and from the
      last instant that pruned it on the log stands for the whole history. */
  lemma NoRollingWindowOverAdmits(q: Quota, ops: seq<Op>, x: nat, t: nat)
    requires q.limit > 0 && q.period > 0 && Careful(q, ops) && Requested(ops) <= U64_MAX
    ensures var s := After(q, ops);
            && Rolling(s.history, x, q.period) <= q.limit
            && (Reach(s) <= t < U64_MAX ==> InWindowAt(s.log, t, q.period) == Live(s.history, t, q.period))
  {
    hide After, Careful, InWindowAt, WellFormed;
    var pruned, live := RunIsParted(q, ops);
    var s := After(q, ops);
    if Reach(s) <= t < U64_MAX {
      LiveConcat(pruned, live, t, q.period);
      AgedCountNothing(pruned, t, q.period);
    }
  }

  // -------------------------------------------------------------- timely runs

  /** In a timely run the history only rises, and what has been pruned is what
      the greatest reading seen has aged. */
  ghost predicate InTime(q: Quota, s: State, pruned: seq<Stamp>, live: seq<Stamp>) {
    && Parted(q, s, pruned, live)
    && (forall u :: u in s.history ==> u.at <= if live == [] then s.seen else live[|live| - 1].at)
    && (forall u :: u in live ==> u.at + q.period > s.seen)
  }

  lemma {:induction false} LatestAtMost(h: seq<Stamp>, bound: nat)
    requires forall u :: u in h ==> u.at <= bound
    ensures Latest(h) <= bound
  {
    if h != [] {
      assert h[|h| - 1] in h;
      assert forall u :: u in h[..|h| - 1] ==> u in h;
      LatestAtMost(h[..|h| - 1], bound);
    }
  }

  /** A reading no older than any that pruned is not near anything pruned. */
  lemma TimelyIsFar(q: Quota, s: State, pruned: seq<Stamp>, live: seq<Stamp>, now: nat)
    requires InTime(q, s, pruned, live) && s.seen <= now
    ensures Reach(s) <= Effective(s.log, now)
    ensures !AgedNear(s.history, Reach(s), Effective(s.log, now), q.period)
  {
    hide StandsFor, WellFormed, RollingBound, Rising;
    LatestAtMost(s.history, if live == [] then s.seen else live[|live| - 1].at);
  }

  lemma AdmitKeepsInTime(q: Quota, s: State, pruned: seq<Stamp>, live: seq<Stamp>, n: nat, now: nat)
    returns (pruned': seq<Stamp>, live': seq<Stamp>)
    requires q.period > 0 && InTime(q, s, pruned, live) && s.seen <= now < U64_MAX
    requires 0 < n <= q.limit && Total(s.log) + n <= U64_MAX && Acquire(q, s.log, n, now).0 == Allow
    ensures InTime(q, Step(q, s, Ask(n, now)), pruned', live')
  {
    TimelyIsFar(q, s, pruned, live, now);
    var e := Effective(s.log, now);
    StepAdmits(q, s, n, now);
    hide Parted, Step, Acquire, AgedNear, Expire, Record;
    pruned', live' := AdmitKeepsParted(q, s, pruned, live, n, now);
    var kept :| live' == kept + [Stamp(e, n)] && pruned' + kept == pruned + live
      && (forall u :: u in kept ==> u in live);
    var s' := Step(q, s, Ask(n, now));
    forall u | u in s'.history ensures u.at <= e {
      if u in s.history { LatestIsLatest(s.history, u); }
    }
  }

  lemma BackIsLast(q: Quota, s: State, pruned: seq<Stamp>, live: seq<Stamp>)
    requires Parted(q, s, pruned, live)
    ensures live != [] ==> s.log.runs != [] && Back(s.log).at == live[|live| - 1].at
    ensures live == [] ==> s.log.runs == []
  {
    hide StandsFor, WellFormed, RollingBound, Rising;
  }

  lemma PruneKeepsInTime(q: Quota, s: State, pruned: seq<Stamp>, live: seq<Stamp>, now: nat)
    returns (pruned': seq<Stamp>, live': seq<Stamp>)
    requires q.period > 0 && InTime(q, s, pruned, live) && now < U64_MAX
    ensures InTime(q, State(Expire(s.log, Effective(s.log, now), q.period), s.history, Max(s.seen, now)), pruned',
            live')
  {
    EffectiveWithinReach(q, s, pruned, live, now);
    var e := Effective(s.log, now);
    BackIsLast(q, s, pruned, live);
    hide Parted, Expire;
    var gone, kept := PruneKeepsParted(q, s, pruned, live, now);
    pruned', live' := pruned + gone, kept;
    if kept == [] && live != [] {
      assert live[|live| - 1] in gone;
    } else if kept != [] {
      assert kept[|kept| - 1] == live[|live| - 1];
      assert forall u :: u in kept ==> u in live;
    }
  }

  lemma StepKeepsInTime(q: Quota, s: State, pruned: seq<Stamp>, live: seq<Stamp>, op: Op)
    returns (pruned': seq<Stamp>, live': seq<Stamp>)
    requires q.limit > 0 && q.period > 0 && InTime(q, s, pruned, live) && op.now < U64_MAX
    requires op.Ask? ==> s.seen <= op.now && Total(s.log) + op.n <= U64_MAX
    ensures InTime(q, Step(q, s, op), pruned', live')
  {
    hide InTime, Step, Acquire;
    if op.Ask? && 0 < op.n <= q.limit && Acquire(q, s.log, op.n, op.now).0 == Allow {
      pruned', live' := AdmitKeepsInTime(q, s, pruned, live, op.n, op.now);
    } else {
      StepPrunes(q, s, op);
      if Step(q, s, op) == s {
        pruned', live' := pruned, live;
      } else {
        pruned', live' := PruneKeepsInTime(q, s, pruned, live, op.now);
      }
    }
  }

  lemma FreshIsInTime(q: Quota)
    ensures InTime(q, Fresh, [], [])
  {
    FreshIsParted(q);
  }

  lemma InTimeIsParted(q: Quota, s: State, pruned: seq<Stamp>, live: seq<Stamp>)
    requires InTime(q, s, pruned, live)
    ensures Parted(q, s, pruned, live)
  {
  }

  /** Timely runs are careful ones, and split exactly. */
  lemma {:induction false} RunIsInTime(q: Quota, ops: seq<Op>) returns (pruned: seq<Stamp>, live: seq<Stamp>)
    requires q.limit > 0 && q.period > 0 && Timely(q, ops) && Requested(ops) <= U64_MAX
    ensures InTime(q, After(q, ops), pruned, live) && Total(After(q, ops).log) <= Requested(ops) && Careful(q, ops)
  {
    hide InTime, Step, AgedNear;
    if ops == [] {
      FreshIsInTime(q);
      pruned, live := [], [];
    } else {
      var init, last := ops[..|ops| - 1], ops[|ops| - 1];
      pruned, live := RunIsInTime(q, init);
      var s := After(q, init);
      InTimeIsParted(q, s, pruned, live);
      PartedIsWellFormed(q, s, pruned, live);
      TotalGrows(q, s, last);
      if last.Ask? { TimelyIsFar(q, s, pruned, live, last.now); }
      pruned, live := StepKeepsInTime(q, s, pruned, live, last);
    }
  }

  // ---------------------------------------------------------- stale readings

  /** Whatever is admitted on this reading, the windows around it stay within
      the limit, pruned units counted. */
  ghost predicate SafeAt(q: Quota, l: Log, history: seq<Stamp>, now: nat) {
    var e := Effective(l, now);
    forall n: nat, x: nat ::
      0 < n <= q.limit && Acquire(q, l, n, now).0 == Allow && x <= e < x + q.period ==>
        Rolling(history + [Stamp(e, n)], x, q.period) <= q.limit
  }

  lemma {:induction false} NearUnitsCount(pruned: seq<Stamp>, s: Stamp, x: nat, period: nat)
    requires s in pruned && s.units > 0 && x <= s.at < x + period
    ensures Rolling(pruned, x, period) > 0
  {
    if pruned[|pruned| - 1] != s {
      NearUnitsCount(pruned[..|pruned| - 1], s, x, period);
    }
  }

  /** A window around `e` that holds a near unit and everything live at `e`. */
  lemma CrowdedWindow(pruned: seq<Stamp>, live: seq<Stamp>, e: nat, period: nat) returns (x: nat)
    requires Near(pruned, e, period)
    requires forall s :: s in live ==> s.at <= e
    requires live != [] ==> forall s :: s in pruned ==> s.at <= e
    ensures x <= e < x + period
    ensures Rolling(pruned + live, x, period) > Live(live, e, period)
  {
    var s :| s in pruned && s.units > 0 && s.at < e + period && e < s.at + period;
    x := if s.at > e then e else SatSub(e + 1, period);
    RollingConcat(pruned, live, x, period);
    NearUnitsCount(pruned, s, x, period);
    if s.at <= e { LiveAtMostRolling(live, x, e, period); }
  }

  lemma UnsafeWhenNear(q: Quota, l: Log, pruned: seq<Stamp>, live: seq<Stamp>, now: nat)
    requires 0 < q.limit && q.period > 0 && now < U64_MAX && WellFormed(l)
    requires var e := Effective(l, now);
             && (forall s :: s in live ==> s.at <= e) && (live != [] ==> forall s :: s in pruned ==> s.at <= e)
             && InWindowAt(l, e, q.period) == Live(live, e, q.period) < q.limit && Near(pruned, e, q.period)
    ensures !SafeAt(q, l, pruned + live, now)
  {
    hide Near, WellFormed, InWindowAt, Acquire;
    var e := Effective(l, now);
    var n := q.limit - InWindowAt(l, e, q.period);
    AdmittedIff(q, l, n, now);
    var x := CrowdedWindow(pruned, live, e, q.period);
    Append(pruned + live, Stamp(e, n), x, 0, q.period);
  }

  lemma SafeWhenFar(q: Quota, l: Log, pruned: seq<Stamp>, live: seq<Stamp>, now: nat)
    requires 0 < q.limit && q.period > 0 && now < U64_MAX && WellFormed(l)
    requires var e := Effective(l, now);
             && InWindowAt(l, e, q.period) == Live(live, e, q.period) <= q.limit
             && (!Near(pruned, e, q.period) || InWindowAt(l, e, q.period) == q.limit)
    ensures SafeAt(q, l, pruned + live, now)
  {
    hide Near, WellFormed, InWindowAt, Acquire;
    var e := Effective(l, now);
    forall n: nat, x: nat | 0 < n <= q.limit && Acquire(q, l, n, now).0 == Allow && x <= e < x + q.period
      ensures Rolling(pruned + live + [Stamp(e, n)], x, q.period) <= q.limit
    {
      AdmittedIff(q, l, n, now);
      Append(pruned + live, Stamp(e, n), x, 0, q.period);
      RollingConcat(pruned, live, x, q.period);
      FarUnitsCountNothing(pruned, e, x, q.period);
      RollingAtMostLive(live, x, e, q.period);
    }
  }

  /** In a timely run, what has been pruned near a reading is what the greatest
      reading seen has aged near it. */
  lemma NearIff(q: Quota, s: State, pruned: seq<Stamp>, live: seq<Stamp>, now: nat)
    requires InTime(q, s, pruned, live)
    ensures var e := Effective(s.log, now);
            Near(pruned, e, q.period) <==> AgedNear(s.history, s.seen, e, q.period)
  {
    BackIsLast(q, s, pruned, live);
    hide Shape, RollingBound;
    var e := Effective(s.log, now);
    if Near(pruned, e, q.period) {
      var u :| u in pruned && u.units > 0 && u.at < e + q.period && e < u.at + q.period;
      LatestAtMost(s.history, if live == [] then s.seen else live[|live| - 1].at);
      assert u in s.history && u.at + q.period <= s.seen;
    }
    if AgedNear(s.history, s.seen, e, q.period) {
      var u :| u in s.history && u.at + q.period <= s.seen && u.at < e + q.period && e < u.at + q.period;
      assert u in pruned;
    }
  }

  /** The window of a timely run is never over-full. */
  lemma WindowWithinLimit(q: Quota, s: State, pruned: seq<Stamp>, live: seq<Stamp>, now: nat)
    requires q.period > 0 && InTime(q, s, pruned, live) && now < U64_MAX
    ensures var e := Effective(s.log, now);
            && InWindowAt(s.log, e, q.period) == Live(live, e, q.period) <= q.limit
            && (forall u :: u in live ==> u.at <= e) && (live != [] ==> forall u :: u in pruned ==> u.at <= e)
  {
    BackIsLast(q, s, pruned, live);
    EffectiveWithinReach(q, s, pruned, live, now);
    var e := Effective(s.log, now);
    hide InWindowAt, WellFormed;
    assert forall u :: u in live ==> u in s.history;
    assert forall u :: u in pruned ==> u in s.history;
    var x := SatSub(e + 1, q.period);
    LiveAtMostRolling(live, x, e, q.period);
    RollingConcat(pruned, live, x, q.period);
    assert Rolling(s.history, x, q.period) <= q.limit;
  }

  /** Exactly when a reading is safe, in every run whose requests so far were
      timely: every grant on it keeps the windows around it within the limit if
      and only if no unit that the greatest pruning reading has aged lies within
      a period of it, or the window is full anyway. */
  lemma SafeIffNothingNearWasPruned(q: Quota, ops: seq<Op>, now: nat)
    requires q.limit > 0 && q.period > 0 && Timely(q, ops) && Requested(ops) <= U64_MAX && now < U64_MAX
    ensures var s := After(q, ops);
            var e := Effective(s.log, now);
            SafeAt(q, s.log, s.history, now) <==>
              (!AgedNear(s.history, s.seen, e, q.period) || InWindowAt(s.log, e, q.period) == q.limit)
  {
    hide After, Timely, Near, AgedNear, SafeAt, Shape, InWindowAt, RollingBound, Careful, WellFormed;
    var pruned, live := RunIsInTime(q, ops);
    var s := After(q, ops);
    var e := Effective(s.log, now);
    InTimeIsParted(q, s, pruned, live);
    PartedIsWellFormed(q, s, pruned, live);
    NearIff(q, s, pruned, live, now);
    WindowWithinLimit(q, s, pruned, live, now);
    if Near(pruned, e, q.period) && InWindowAt(s.log, e, q.period) < q.limit {
      UnsafeWhenNear(q, s.log, pruned, live, now);
    } else {
      SafeWhenFar(q, s.log, pruned, live, now);
    }
  }

  lemma TwoAdmitted()
    ensures var q := Quota(3, 1000);
            Step(q, Step(q, Fresh, Ask(2, 0)), Ask(1, 900)) ==
              State(Log([SlidingLog.Run(0, 2), SlidingLog.Run(900, 3)], 0), [Stamp(0, 2), Stamp(900, 1)], 0)
  {
    var q := Quota(3, 1000);
    assert Expire(Empty, 0, 1000) == Empty;
    var s1 := Step(q, Fresh, Ask(2, 0));
    assert s1 == State(Log([SlidingLog.Run(0, 2)], 0), [Stamp(0, 2)], 0);
    CutIs(s1.log.runs, 900, 1000, 0);
    assert Expire(s1.log, 900, 1000) == s1.log;
  }

  lemma StaleAfterDenial(s: State)
    requires s == State(Log([SlidingLog.Run(0, 2), SlidingLog.Run(900, 3)], 0), [Stamp(0, 2), Stamp(900, 1)], 0)
    ensures var q := Quota(3, 1000);
            Step(q, Step(q, s, Ask(3, 1000)), Ask(2, 950)).history == s.history + [Stamp(950, 2)]
  {
    var q := Quota(3, 1000);
    CutIs(s.log.runs, 1000, 1000, 1);
    var live := Log([SlidingLog.Run(900, 3)], 2);
    assert Expire(s.log, 1000, 1000) == live;
    var s3 := Step(q, s, Ask(3, 1000));
    assert s3.log == live && s3.history == s.history;
    CutIs(live.runs, 950, 1000, 0);
    assert Expire(live, 950, 1000) == live;
  }

  /** So a denial can loosen the log: after 2 units at 0 and 1 at 900, a request
      for 3 at 1000 is refused but drops the first two, and a thread still
      carrying reading 950 is then granted 2 more. Five units lie in one window
      of 1000 under a limit of 3. */
  lemma StaleReadingAfterADenialOverAdmits()
    ensures var q := Quota(3, 1000);
            var s := Step(q, Step(q, Step(q, Step(q, Fresh, Ask(2, 0)), Ask(1, 900)), Ask(3, 1000)), Ask(2, 950));
            Rolling(s.history, 0, 1000) == 5
  {
    var q := Quota(3, 1000);
    TwoAdmitted();
    var s2 := Step(q, Step(q, Fresh, Ask(2, 0)), Ask(1, 900));
    StaleAfterDenial(s2);
    Append(s2.history, Stamp(950, 2), 0, 0, 1000);
    Append([Stamp(0, 2)], Stamp(900, 1), 0, 0, 1000);
    assert [Stamp(0, 2)] + [Stamp(900, 1)] == s2.history;
  }
}
