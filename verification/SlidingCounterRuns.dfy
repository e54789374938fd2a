/** Whole runs of the sliding counter against the full history of admissions:
    how far an approximate count can let a rolling window overshoot. */
module SlidingCounterRuns {
  import opened Units
  import opened Division
  import opened SlidingCounter

  /** `units` admitted `offset` nanoseconds into `window`. */
  datatype Stamp = Stamp(window: nat, offset: nat, units: nat)

  function At(q: Quota, s: Stamp): nat { s.window * q.period + s.offset }

  /** Units admitted in one fixed window. */
  function InFixed(h: seq<Stamp>, window: nat): nat {
    if h == [] then 0
    else
      var last := h[|h| - 1];
      InFixed(h[..|h| - 1], window) + if last.window == window then last.units else 0
  }

  /** The stamp lies in the rolling window that starts `o` into window `v`. */
  predicate Covers(v: nat, o: nat, s: Stamp) {
    (s.window == v && s.offset >= o) || (s.window == v + 1 && s.offset < o)
  }

  /** Units admitted in the rolling window that starts `o` into window `v`. */
  function InRolling(h: seq<Stamp>, v: nat, o: nat): nat {
    if h == [] then 0
    else
      var last := h[|h| - 1];
      InRolling(h[..|h| - 1], v, o) + if Covers(v, o, last) then last.units else 0
  }

  /** That rolling window is the period of instants from its start. */
  lemma CoversIsOnePeriod(q: Quota, v: nat, o: nat, s: Stamp)
    requires q.period > 0 && o < q.period && s.offset < q.period
    ensures Covers(v, o, s) <==> v * q.period + o <= At(q, s) < v * q.period + o + q.period
  {
    Boundaries(q, v);
    if s.window < v {
      MulMonotone(s.window + 1, v, q.period);
      Boundaries(q, s.window);
    } else if s.window > v + 1 {
      MulMonotone(v + 2, s.window, q.period);
    }
  }

  lemma Append(h: seq<Stamp>, s: Stamp, v: nat, o: nat)
    ensures InFixed(h + [s], v) == InFixed(h, v) + if s.window == v then s.units else 0
    ensures InRolling(h + [s], v, o) == InRolling(h, v, o) + if Covers(v, o, s) then s.units else 0
  {
    assert (h + [s])[..|h|] == h;
  }

  lemma {:induction false} RollingWithinTwoWindows(h: seq<Stamp>, v: nat, o: nat)
    ensures InRolling(h, v, o) <= InFixed(h, v) + InFixed(h, v + 1)
    ensures o == 0 ==> InRolling(h, v, o) <= InFixed(h, v)
  {
    if h != [] { RollingWithinTwoWindows(h[..|h| - 1], v, o); }
  }

  datatype Op = Ask(n: nat, now: nat) | Look(now: nat)

  datatype State = State(counts: Counts, history: seq<Stamp>)

  function Step(q: Quota, s: State, op: Op): State
    requires q.period > 0
  {
    match op
    case Look(now) => s.(counts := Peek(q, s.counts, now).2)
    case Ask(n, now) =>
      var (d, counts) := Acquire(q, s.counts, n, now);
      if d == Allow && n > 0 then
        var (r, nowNs) := Roll(q, s.counts, Clamp64(now));
        State(counts, s.history + [Stamp(r.window, Offset(q, nowNs), n)])
      else s.(counts := counts)
  }

  function After(q: Quota, start: nat, ops: seq<Op>): State
    requires q.period > 0
  {
    if ops == [] then State(New(q, start), [])
    else Step(q, After(q, start, ops[..|ops| - 1]), ops[|ops| - 1])
  }

  /** The counts are the history's own, and nothing lies past them. */
  ghost predicate CountsMatch(c: Counts, h: seq<Stamp>) {
    && c.curr == InFixed(h, c.window)
    && (c.window > 0 ==> c.prev == InFixed(h, c.window - 1))
    && (c.window == 0 ==> c.prev == 0)
    && (forall v :: v > c.window ==> InFixed(h, v) == 0)
  }

  /** The overshoot of a rolling window is at most the share of its earlier
      fixed window that the weighting has let go. */
  ghost predicate OvershootBounded(q: Quota, h: seq<Stamp>) {
    && (forall v :: InFixed(h, v) <= q.limit)
    && (forall v: nat, o: nat :: o < q.period ==>
          InRolling(h, v, o) * q.period <= q.limit * q.period + InFixed(h, v) * o)
  }

  ghost predicate Inv(q: Quota, s: State) {
    && s.counts.window * q.period <= U64_MAX
    && CountsMatch(s.counts, s.history)
    && OvershootBounded(q, s.history)
  }

  lemma RollKeepsInv(q: Quota, s: State, t: nat)
    requires Usable(q) && Inv(q, s) && t <= U64_MAX
    ensures Inv(q, s.(counts := Roll(q, s.counts, t).0))
  {
    RollNumber(q, s.counts, t);
    RollCases(q, s.counts, t);
  }

  /** What `Fits` grants, as a bound on the two counts. */
  lemma FitsBounds(q: Quota, r: Counts, offset: nat, n: nat)
    requires offset <= q.period && q.period > 0 && Fits(q, r, offset, n)
    ensures r.curr + n <= q.limit
    ensures (r.prev + (r.curr + n)) * q.period <= q.limit * q.period + r.prev * offset
  {
    assert (r.curr + n) * q.period == r.curr * q.period + n * q.period;
    assert (r.prev + (r.curr + n)) * q.period == r.prev * q.period + (r.curr + n) * q.period;
    assert r.prev * (q.period - offset) == r.prev * q.period - r.prev * offset;
    MulMonotoneRight(r.prev, 0, q.period - offset);
    MulCancel(r.curr + n, q.limit, q.period);
  }

  /** One more admission and one rolling window. */
  lemma AdmitKeepsRolling(q: Quota, r: Counts, h: seq<Stamp>, offset: nat, n: nat, v: nat, o: nat)
    requires Usable(q) && CountsMatch(r, h) && OvershootBounded(q, h)
    requires offset < q.period && Fits(q, r, offset, n) && o < q.period
    ensures var h' := h + [Stamp(r.window, offset, n)];
            InRolling(h', v, o) * q.period <= q.limit * q.period + InFixed(h', v) * o
  {
    var s := Stamp(r.window, offset, n);
    FitsBounds(q, r, offset, n);
    Append(h, s, v, o);
    Append(h, s, v + 1, o);
    RollingWithinTwoWindows(h + [s], v, o);
    var rolling, fixed := InRolling(h + [s], v, o), InFixed(h + [s], v);
    MulMonotone(InFixed(h, v), fixed, o);
    if Covers(v, o, s) {
      if v == r.window {
        assert InFixed(h, v + 1) == 0;
        MulMonotone(rolling, q.limit, q.period);
      } else {
        MulMonotone(rolling, r.prev + (r.curr + n), q.period);
        MulMonotoneRight(r.prev, offset, o);
      }
    }
  }

  lemma AdmitKeepsInv(q: Quota, r: Counts, h: seq<Stamp>, offset: nat, n: nat)
    requires Usable(q) && Inv(q, State(r, h))
    requires offset < q.period && Fits(q, r, offset, n)
    ensures Inv(q, State(r.(curr := r.curr + n), h + [Stamp(r.window, offset, n)]))
  {
    var s := Stamp(r.window, offset, n);
    var h' := h + [s];
    FitsBounds(q, r, offset, n);
    forall v
      ensures InFixed(h', v) == InFixed(h, v) + if r.window == v then n else 0
    {
      Append(h, s, v, 0);
    }
    forall v: nat, o: nat | o < q.period
      ensures InRolling(h', v, o) * q.period <= q.limit * q.period + InFixed(h', v) * o
    {
      AdmitKeepsRolling(q, r, h, offset, n, v, o);
    }
  }

  lemma StepKeepsInv(q: Quota, s: State, op: Op)
    requires Usable(q) && Inv(q, s)
    ensures Inv(q, Step(q, s, op))
  {
    var t := Clamp64(op.now);
    RollKeepsInv(q, s, t);
    if op.Ask? && 0 < op.n <= q.limit && Acquire(q, s.counts, op.n, op.now).0 == Allow {
      var (r, nowNs) := Roll(q, s.counts, t);
      FitsBounds(q, r, Offset(q, nowNs), op.n);
      AdmitKeepsInv(q, r, s.history, Offset(q, nowNs), op.n);
    }
  }

  lemma {:induction false} RunKeepsInv(q: Quota, start: nat, ops: seq<Op>)
    requires Usable(q)
    ensures Inv(q, After(q, start, ops))
  {
    if ops == [] {
      WindowNumber(q, Clamp64(start));
      forall v: nat, o: nat | o < q.period
        ensures InRolling([], v, o) * q.period <= q.limit * q.period + InFixed([], v) * o
      {
        MulMonotone(0, q.limit, q.period);
      }
    } else {
      RunKeepsInv(q, start, ops[..|ops| - 1]);
      StepKeepsInv(q, After(q, start, ops[..|ops| - 1]), ops[|ops| - 1]);
    }
  }

  lemma BelowTwice(rolling: nat, fixed: nat, limit: nat, period: nat, o: nat)
    requires rolling * period <= limit * period + fixed * o && fixed <= limit && o < period && limit > 0
    ensures rolling < 2 * limit
  {
    MulMonotone(fixed, limit, o);
    MulMonotoneRight(limit, o + 1, period);
    assert limit * (o + 1) == limit * o + limit;
    if rolling >= 2 * limit {
      MulMonotone(2 * limit, rolling, period);
    }
  }

  lemma InvBounds(q: Quota, s: State, v: nat, o: nat)
    requires Usable(q) && Inv(q, s) && o < q.period
    ensures && InRolling(s.history, v, o) * q.period <= q.limit * q.period + InFixed(s.history, v) * o
            && InFixed(s.history, v) <= q.limit
            && InRolling(s.history, v, o) < 2 * q.limit
  {
    BelowTwice(InRolling(s.history, v, o), InFixed(s.history, v), q.limit, q.period, o);
  }

  /** Over every run, with requests and peeks in any order of readings: the
      rolling window starting `o` into window `v` overshoots by at most
      `InFixed(v) * o / period`, so twice the limit is never reached. */
  lemma NoRollingWindowReachesTwiceTheLimit(q: Quota, start: nat, ops: seq<Op>, v: nat, o: nat)
    requires Usable(q) && o < q.period
    ensures var h := After(q, start, ops).history;
            && InRolling(h, v, o) * q.period <= q.limit * q.period + InFixed(h, v) * o
            && InFixed(h, v) <= q.limit
            && InRolling(h, v, o) < 2 * q.limit
  {
    RunKeepsInv(q, start, ops);
    InvBounds(q, After(q, start, ops), v, o);
  }
}
