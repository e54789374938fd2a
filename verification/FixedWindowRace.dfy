/** `FixedWindow::acquire` under every interleaving (src/algo/fixed_window.rs:
    99-171): loads of the state word and of `latest`, the `fetch_max`, and the
    weak compare-and-swap are separate steps of any number of threads whose
    readings may be stale.

    `held`, `from` and `seen` are auxiliary: the first two name in full the window
    whose low 32 bits a word carries, the last is the newest window a thread has
    read. No step depends on them. */
module FixedWindowRace {
  import opened Units
  import opened Division
  import opened FixedWindow

  /** `opened_over`, and the full window of the word it remembers. */
  datatype Over = Over(word: nat, window: nat, from: nat)

  datatype Thread =
    | Idle
    | Entered(n: nat, nowNs: nat, over: Option<Over>)
    | HasWord(n: nat, nowNs: nat, over: Option<Over>, word: nat, from: nat)
    | Opening(n: nat, nowNs: nat, word: nat, from: nat, window: nat, total: nat, seen: nat)
    | Swapping(n: nat, nowNs: nat, over: Option<Over>, word: nat, from: nat, window: nat, total: nat, seen: nat)

  datatype Admission = Admission(window: nat, units: nat)

  datatype State = State(word: nat, latest: nat, held: nat, threads: map<nat, Thread>, log: seq<Admission>)

  datatype Action =
    | Call(tid: nat, n: nat, now: nat)
    | LoadWord(tid: nat)
    | LoadLatest(tid: nat)
    | Raise(tid: nat)
    | Swap(tid: nat, spurious: bool)

  /** A call that has returned, with the newest window it had read. */
  datatype Return = Return(n: nat, now: nat, seen: nat, decision: Decision)

  function ThreadOf(s: State, tid: nat): Thread {
    if tid in s.threads then s.threads[tid] else Idle
  }

  function With(s: State, tid: nat, t: Thread): State {
    s.(threads := s.threads[tid := t])
  }

  function Judge(q: Quota, s: State, tid: nat): (State, Option<Return>)
    requires ThreadOf(s, tid).HasWord?
  {
    var HasWord(n, nowNs, over, word, from) := ThreadOf(s, tid);
    var window := Max(WindowOf(q, nowNs), s.latest);
    var base :=
      if over.Some? && over.value.word == word && over.value.window == window then 0
      else CountIn(window, word, s.latest);
    if base + n > q.limit then
      (With(s, tid, Idle), Some(Return(n, nowNs, s.latest, Deny(UntilEndOf(q, window, nowNs)))))
    else if window > s.latest then (With(s, tid, Opening(n, nowNs, word, from, window, base + n, s.latest)), None)
    else (With(s, tid, Swapping(n, nowNs, over, word, from, window, base + n, s.latest)), None)
  }

  /** One step, and the call that returns in it. */
  function Next(q: Quota, s: State, a: Action): (State, Option<Return>) {
    var t := ThreadOf(s, a.tid);
    match a
    case Call(tid, n, now) =>
      if !t.Idle? then (s, None)
      else if n == 0 then (s, Some(Return(n, now, s.latest, Allow)))
      else if DenyAll(q) || n > q.limit then (s, Some(Return(n, now, s.latest, Deny(DURATION_MAX))))
      else (With(s, tid, Entered(n, Clamp64(now), None)), None)
    case LoadWord(tid) =>
      if !t.Entered? then (s, None)
      else (With(s, tid, HasWord(t.n, t.nowNs, t.over, s.word, s.held)), None)
    case LoadLatest(tid) =>
      if !t.HasWord? then (s, None) else Judge(q, s, tid)
    case Raise(tid) =>
      if !t.Opening? then (s, None)
      else (With(s, tid, Swapping(t.n, t.nowNs, Some(Over(t.word, t.window, t.from)), t.word, t.from, t.window,
                                  t.total, t.seen)).(latest := Max(s.latest, t.window)), None)
    case Swap(tid, spurious) =>
      if !t.Swapping? then (s, None)
      else if spurious || s.word != t.word then (With(s, tid, Entered(t.n, t.nowNs, t.over)), None)
      else (With(s, tid, Idle).(word := Pack(LowBits(t.window), t.total), held := t.window,
                                log := s.log + [Admission(t.window, t.n)]),
            Some(Return(t.n, t.nowNs, t.seen, Allow)))
  }

  function Step(q: Quota, s: State, a: Action): State { Next(q, s, a).0 }

  function Run(q: Quota, s: State, actions: seq<Action>): State {
    if actions == [] then s
    else Step(q, Run(q, s, actions[..|actions| - 1]), actions[|actions| - 1])
  }

  function Start(first: nat): State { State(Pack(LowBits(first), 0), first, first, map[], []) }

  /** Units admitted in `window`. */
  function AdmittedIn(log: seq<Admission>, window: nat): nat {
    if log == [] then 0
    else
      var last := log[|log| - 1];
      AdmittedIn(log[..|log| - 1], window) + if last.window == window then last.units else 0
  }

  lemma AdmittedInAppend(log: seq<Admission>, e: Admission, window: nat)
    ensures AdmittedIn(log + [e], window) == AdmittedIn(log, window) + if e.window == window then e.units else 0
  {
    assert (log + [e])[..|log|] == log;
  }

  /** No two of these windows share their low 32 bits. */
  ghost predicate IndexInjective(windows: set<nat>) {
    forall v, w :: v in windows && w in windows && LowBits(v) == LowBits(w) ==> v == w
  }

  /** The windows that the run's readings fall in. */
  ghost predicate ReadsWithin(q: Quota, actions: seq<Action>, windows: set<nat>) {
    forall a :: a in actions && a.Call? ==> WindowOf(q, Clamp64(a.now)) in windows
  }

  ghost predicate OverOk(windows: set<nat>, over: Option<Over>) {
    over.Some? ==>
      over.value.from in windows && IndexOf(over.value.word) == LowBits(over.value.from) &&
      over.value.from < over.value.window
  }

  ghost predicate LoadedOk(windows: set<nat>, s: State, word: nat, from: nat) {
    && from in windows && IndexOf(word) == LowBits(from) && from <= s.held
    && CountOf(word) <= AdmittedIn(s.log, from)
  }

  /** A count that may be written for `window` over `word`. */
  ghost predicate TotalOk(q: Quota, n: nat, word: nat, from: nat, window: nat, total: nat) {
    && from <= window && total <= q.limit
    && total == (if window == from then CountOf(word) else 0) + n
  }

  /** On the word it loaded and the newest window it read, one thread alone would be
      granted its units, and leave what this one is about to write. */
  ghost predicate Judged(q: Quota, s: State, n: nat, nowNs: nat, word: nat, window: nat, total: nat, seen: nat) {
    && seen <= s.latest && nowNs <= U64_MAX
    && Acquire(q, Words(word, seen), n, nowNs) == (Allow, Words(Pack(LowBits(window), total), window))
  }

  ghost predicate ThreadOk(q: Quota, windows: set<nat>, s: State, t: Thread) {
    match t
    case Idle => true
    case Entered(n, nowNs, over) =>
      WindowOf(q, nowNs) in windows && nowNs <= U64_MAX && 0 < n <= q.limit && !DenyAll(q) && OverOk(windows, over)
    case HasWord(n, nowNs, over, word, from) =>
      && WindowOf(q, nowNs) in windows && nowNs <= U64_MAX && 0 < n <= q.limit && !DenyAll(q)
      && OverOk(windows, over) && LoadedOk(windows, s, word, from)
    case Opening(n, nowNs, word, from, window, total, seen) =>
      && WindowOf(q, nowNs) in windows && 0 < n <= q.limit && !DenyAll(q) && LoadedOk(windows, s, word, from)
      && window in windows && from < window && TotalOk(q, n, word, from, window, total)
      && Judged(q, s, n, nowNs, word, window, total, seen)
    case Swapping(n, nowNs, over, word, from, window, total, seen) =>
      && WindowOf(q, nowNs) in windows && 0 < n <= q.limit && !DenyAll(q) && OverOk(windows, over)
      && LoadedOk(windows, s, word, from)
      && window in windows && window <= s.latest && TotalOk(q, n, word, from, window, total)
      && Judged(q, s, n, nowNs, word, window, total, seen)
  }

  ghost predicate CountsOk(q: Quota, s: State) {
    && s.word == Pack(LowBits(s.held), AdmittedIn(s.log, s.held))
    && (forall w :: AdmittedIn(s.log, w) <= q.limit)
    && (forall w :: w > s.held ==> AdmittedIn(s.log, w) == 0)
  }

  ghost predicate Inv(q: Quota, windows: set<nat>, s: State) {
    && s.held in windows && s.latest in windows && s.held <= s.latest
    && CountsOk(q, s)
    && (forall tid :: tid in s.threads ==> ThreadOk(q, windows, s, s.threads[tid]))
  }

  /** The count a thread judges by is the one that is there. */
  lemma BaseIs(q: Quota, windows: set<nat>, s: State, tid: nat)
    requires IndexInjective(windows) && Inv(q, windows, s) && ThreadOf(s, tid).HasWord?
    ensures var HasWord(n, nowNs, over, word, from) := ThreadOf(s, tid);
            var window := Max(WindowOf(q, nowNs), s.latest);
            && window in windows && from <= window
            && CountIn(window, word, s.latest) == (if window == from then CountOf(word) else 0)
            && (over.Some? && over.value.word == word && over.value.window == window ==> from < window)
  {
    hide Pack, CountOf, IndexOf, WindowOf, AdmittedIn, Acquire, CountsOk;
  }

  /** What the thread goes on with is in order. */
  lemma JudgedIsOk(q: Quota, windows: set<nat>, s: State, tid: nat)
    requires IndexInjective(windows) && Inv(q, windows, s) && ThreadOf(s, tid).HasWord?
    ensures ThreadOk(q, windows, s, ThreadOf(Judge(q, s, tid).0, tid))
  {
    BaseIs(q, windows, s, tid);
    assert ThreadOk(q, windows, s, s.threads[tid]);
    hide Pack, CountOf, IndexOf, WindowOf, AdmittedIn, CountsOk;
  }

  lemma JudgeKeepsInv(q: Quota, windows: set<nat>, s: State, tid: nat)
    requires q.limit <= U32_MAX && IndexInjective(windows)
    requires Inv(q, windows, s) && ThreadOf(s, tid).HasWord?
    ensures Inv(q, windows, Judge(q, s, tid).0)
  {
    JudgedIsOk(q, windows, s, tid);
    hide Pack, CountOf, IndexOf, WindowOf, AdmittedIn, Acquire, TotalOk, CountIn;
  }

  /** Words that move on and windows that admit more disturb no thread. */
  lemma ThreadStaysOk(q: Quota, windows: set<nat>, s: State, s': State, t: Thread)
    requires ThreadOk(q, windows, s, t) && s.held <= s'.held && s.latest <= s'.latest
    requires forall w :: AdmittedIn(s.log, w) <= AdmittedIn(s'.log, w)
    ensures ThreadOk(q, windows, s', t)
  {
    hide Pack, CountOf, IndexOf, WindowOf, AdmittedIn, Acquire, TotalOk;
  }

  /** A successful swap adds its units to the window it moves the word to. */
  lemma SwapCounts(q: Quota, windows: set<nat>, s: State, tid: nat)
    requires q.limit <= U32_MAX && IndexInjective(windows) && Inv(q, windows, s) && ThreadOf(s, tid).Swapping?
             && s.word == s.threads[tid].word
    ensures var s' := Step(q, s, Swap(tid, false));
            && CountsOk(q, s') && s'.held in windows && s.held <= s'.held <= s'.latest == s.latest
            && s'.threads == s.threads[tid := Idle]
            && forall w :: AdmittedIn(s.log, w) <= AdmittedIn(s'.log, w)
  {
    var s' := Step(q, s, Swap(tid, false));
    var t := s.threads[tid];
    assert ThreadOk(q, windows, s, t);
    PackRoundTrip(LowBits(s.held), AdmittedIn(s.log, s.held));
    hide Pack, CountOf, IndexOf, WindowOf, Acquire, AdmittedIn, Judged;
    assert s.held == t.from;
    forall w
      ensures AdmittedIn(s'.log, w) == AdmittedIn(s.log, w) + if t.window == w then t.n else 0
    {
      AdmittedInAppend(s.log, Admission(t.window, t.n), w);
    }
  }

  lemma SwapKeepsInv(q: Quota, windows: set<nat>, s: State, tid: nat)
    requires q.limit <= U32_MAX && IndexInjective(windows)
    requires Inv(q, windows, s) && ThreadOf(s, tid).Swapping?
    ensures Inv(q, windows, Step(q, s, Swap(tid, false)))
    ensures s.held <= Step(q, s, Swap(tid, false)).held
  {
    var s' := Step(q, s, Swap(tid, false));
    assert ThreadOk(q, windows, s, s.threads[tid]);
    hide Pack, CountOf, IndexOf, WindowOf, Acquire, AdmittedIn, Judged, CountsOk, LoadedOk, TotalOk, IndexInjective;
    if s.word == s.threads[tid].word {
      SwapCounts(q, windows, s, tid);
      forall i | i in s'.threads ensures ThreadOk(q, windows, s', s'.threads[i]) {
        if i != tid { ThreadStaysOk(q, windows, s, s', s.threads[i]); }
      }
    }
  }

  lemma EnterKeepsInv(q: Quota, windows: set<nat>, s: State, tid: nat, n: nat, now: nat)
    requires Inv(q, windows, s) && WindowOf(q, Clamp64(now)) in windows
    ensures Inv(q, windows, Step(q, s, Call(tid, n, now)))
  {
    hide WindowOf, Pack, Acquire, IndexOf, CountOf, AdmittedIn;
  }

  lemma LoadKeepsInv(q: Quota, windows: set<nat>, s: State, tid: nat)
    requires q.limit <= U32_MAX && Inv(q, windows, s)
    ensures Inv(q, windows, Step(q, s, LoadWord(tid)))
  {
    assert AdmittedIn(s.log, s.held) <= q.limit;
    PackRoundTrip(LowBits(s.held), AdmittedIn(s.log, s.held));
    hide WindowOf, Pack, Acquire, IndexOf, CountOf, AdmittedIn;
  }

  lemma RaiseKeepsInv(q: Quota, windows: set<nat>, s: State, tid: nat)
    requires Inv(q, windows, s)
    ensures Inv(q, windows, Step(q, s, Raise(tid)))
  {
    hide WindowOf, Pack, Acquire, IndexOf, CountOf, AdmittedIn;
  }

  lemma StepKeepsInv(q: Quota, windows: set<nat>, s: State, a: Action)
    requires q.limit <= U32_MAX && IndexInjective(windows) && ReadsWithin(q, [a], windows)
    requires Inv(q, windows, s)
    ensures Inv(q, windows, Step(q, s, a))
    ensures s.held <= Step(q, s, a).held && s.latest <= Step(q, s, a).latest
  {
    match a
    case Call(tid, n, now) => {
      assert a in [a];
      EnterKeepsInv(q, windows, s, tid, n, now);
    }
    case LoadWord(tid) => LoadKeepsInv(q, windows, s, tid);
    case LoadLatest(tid) =>
      if ThreadOf(s, tid).HasWord? { JudgeKeepsInv(q, windows, s, tid); }
    case Raise(tid) => RaiseKeepsInv(q, windows, s, tid);
    case Swap(tid, spurious) => {
      if ThreadOf(s, tid).Swapping? && !spurious { SwapKeepsInv(q, windows, s, tid); }
      hide Judged, LoadedOk, TotalOk, CountsOk, IndexInjective;
    }
  }

  /** A denial by a word since replaced still stands: its window's count has only
      grown. */
  lemma DenialIsAtomic(q: Quota, windows: set<nat>, s: State, tid: nat)
    requires q.limit <= U32_MAX && IndexInjective(windows) && Inv(q, windows, s) && ThreadOf(s, tid).HasWord?
    ensures var (s', r) := Judge(q, s, tid);
            && s'.word == s.word && s'.log == s.log && s'.latest == s.latest
            && (r.Some? ==>
                  && r.value.decision.Deny? && r.value.seen == s.latest && r.value.n > 0
                  && (r.value.decision, Words(s.word, s.latest)) ==
                       Acquire(q, Words(s.word, s.latest), r.value.n, r.value.now))
  {
    PackRoundTrip(LowBits(s.held), AdmittedIn(s.log, s.held));
    hide Pack, CountOf, IndexOf, WindowOf, AdmittedIn, Judged;
  }

  /** Every call takes effect at one instant: the step that returns it decides as
      one thread alone would on the word as it stands and the newest window the
      call has read, the wait of a denial included; and only the step that grants
      a call changes the word, to what that thread alone would leave. */
  lemma CallsAreAtomic(q: Quota, windows: set<nat>, s: State, a: Action)
    requires q.limit <= U32_MAX && IndexInjective(windows) && Inv(q, windows, s)
    ensures var (s', r) := Next(q, s, a);
            r.Some? ==>
              && r.value.seen <= s.latest
              && var (d, words) := Acquire(q, Words(s.word, r.value.seen), r.value.n, r.value.now);
                 && r.value.decision == d && s'.word == words.word && s'.latest == s.latest
                 && (r.value.n > 0 && d == Allow ==> s'.log == s.log + [Admission(words.latest, r.value.n)])
    ensures var (s', r) := Next(q, s, a);
            r.None? ==> s'.word == s.word && s'.log == s.log
  {
    match a
    case Call(tid, n, now) =>
    case LoadWord(tid) =>
    case LoadLatest(tid) => if ThreadOf(s, tid).HasWord? { DenialIsAtomic(q, windows, s, tid); }
    case Raise(tid) =>
    case Swap(tid, spurious) => hide Pack, CountOf, IndexOf, WindowOf;
  }

  /** Over every interleaving, if the low 32 bits tell the run's windows apart:
      the state word's window never moves back, its count is exactly what that
      window has admitted, and no window admits more than the limit. */
  lemma {:induction false} NoWindowOverAdmits(q: Quota, windows: set<nat>, first: nat, actions: seq<Action>)
    requires q.limit <= U32_MAX && IndexInjective(windows)
    requires first in windows && ReadsWithin(q, actions, windows)
    ensures Inv(q, windows, Run(q, Start(first), actions))
    ensures forall w :: AdmittedIn(Run(q, Start(first), actions).log, w) <= q.limit
    ensures forall k :: 0 <= k <= |actions| ==>
              Run(q, Start(first), actions[..k]).held <= Run(q, Start(first), actions).held
  {
    if actions != [] {
      var init, last := actions[..|actions| - 1], actions[|actions| - 1];
      assert last in actions;
      NoWindowOverAdmits(q, windows, first, init);
      StepKeepsInv(q, windows, Run(q, Start(first), init), last);
      forall k | 0 <= k <= |actions|
        ensures Run(q, Start(first), actions[..k]).held <= Run(q, Start(first), actions).held
      {
        if k < |actions| { assert actions[..k] == init[..k]; } else { assert actions[..k] == actions; }
      }
    }
  }

  // ------------------------------------------------------- the wrapped index

  lemma RunSnoc(q: Quota, s: State, actions: seq<Action>, a: Action)
    ensures Run(q, s, actions + [a]) == Step(q, Run(q, s, actions), a)
  {
    assert (actions + [a])[..|actions|] == actions;
  }

  lemma RunAppend(q: Quota, s: State, xs: seq<Action>, ys: seq<Action>)
    ensures Run(q, s, xs + ys) == Run(q, Run(q, s, xs), ys)
  {
    if ys == [] {
      assert xs + ys == xs;
    } else {
      var init, last := ys[..|ys| - 1], ys[|ys| - 1];
      assert xs + ys == (xs + init) + [last];
      RunSnoc(q, s, xs + init, last);
    }
  }

  /** A thread alone fills the window it reads. */
  function FillAlone(q: Quota, tid: nat, now: nat): seq<Action> {
    [Call(tid, q.limit, now), LoadWord(tid), LoadLatest(tid), Swap(tid, false)]
  }

  /** Two threads judge the same word together, then both open and both swap. */
  function OpenTogether(q: Quota, now: nat): seq<Action> {
    [Call(1, q.limit, now), Call(2, q.limit, now), LoadWord(1), LoadWord(2), LoadLatest(1), LoadLatest(2),
     Raise(1), Raise(2), Swap(2, false), Swap(1, false)]
  }

  lemma Unroll4(q: Quota, s: State, a: seq<Action>)
    requires |a| == 4
    ensures Run(q, s, a) == Step(q, Step(q, Step(q, Step(q, s, a[0]), a[1]), a[2]), a[3])
  {
    assert a == ((([] + [a[0]]) + [a[1]]) + [a[2]]) + [a[3]];
    RunSnoc(q, s, [], a[0]);
    RunSnoc(q, s, [] + [a[0]], a[1]);
    RunSnoc(q, s, ([] + [a[0]]) + [a[1]], a[2]);
    RunSnoc(q, s, (([] + [a[0]]) + [a[1]]) + [a[2]], a[3]);
  }

  lemma WindowStart(q: Quota, w: nat)
    requires q.period > 0
    ensures WindowOf(q, w * q.period) == w
  {
    FloorIff(w * q.period, q.period, w);
    FloorIff(w * q.period, q.period, w + 1);
    assert (w + 1) * q.period == w * q.period + q.period;
  }

  lemma FillAloneFills(q: Quota, v: nat, now: nat)
    requires 1 <= q.limit <= U32_MAX && q.period > 0 && now <= U64_MAX && WindowOf(q, now) == v
    ensures Run(q, Start(v), FillAlone(q, 0, now)) ==
              State(Pack(LowBits(v), q.limit), v, v, map[0 := Idle], [Admission(v, q.limit)])
  {
    PackRoundTrip(LowBits(v), 0);
    var s1 := Step(q, Start(v), Call(0, q.limit, now));
    assert s1 == With(Start(v), 0, Entered(q.limit, now, None));
    var s2 := Step(q, s1, LoadWord(0));
    assert s2 == With(Start(v), 0, HasWord(q.limit, now, None, s1.word, v));
    var s3 := Step(q, s2, LoadLatest(0));
    assert s3 == With(Start(v), 0, Swapping(q.limit, now, None, s1.word, v, v, q.limit, v));
    Unroll4(q, Start(v), FillAlone(q, 0, now));
  }

  lemma CallEnters(q: Quota, s: State, tid: nat, n: nat, now: nat)
    requires ThreadOf(s, tid).Idle? && 0 < n <= q.limit && q.period > 0 && now <= U64_MAX
    ensures Step(q, s, Call(tid, n, now)) == With(s, tid, Entered(n, now, None))
  {
  }

  lemma LoadsWord(q: Quota, s: State, tid: nat)
    requires ThreadOf(s, tid).Entered?
    ensures var t := ThreadOf(s, tid);
            Step(q, s, LoadWord(tid)) == With(s, tid, HasWord(t.n, t.nowNs, t.over, s.word, s.held))
  {
  }

  lemma WithTwice(s: State, i: nat, j: nat, t: Thread, u: Thread, v: Thread)
    requires i != j
    ensures With(With(With(s, i, t), j, u), i, v) == With(With(s, i, v), j, u)
    ensures With(With(With(s, i, t), j, u), j, v) == With(With(s, i, t), j, v)
  {
    assert s.threads[i := t][j := u][i := v] == s.threads[i := v][j := u];
    assert s.threads[i := t][j := u][j := v] == s.threads[i := t][j := v];
  }

  /** Both threads have read the full earlier window, and neither has raised
      `latest`. */
  lemma BothJudge(q: Quota, s: State, v: nat, w: nat, now: nat)
    requires 1 <= q.limit <= U32_MAX && q.period > 0 && now <= U64_MAX && WindowOf(q, now) == w
    requires v < w && s == State(Pack(LowBits(v), q.limit), v, v, map[0 := Idle], [Admission(v, q.limit)])
    ensures Run(q, s, OpenTogether(q, now)[..4]) ==
              With(With(s, 1, HasWord(q.limit, now, None, s.word, v)), 2, HasWord(q.limit, now, None, s.word, v))
  {
    var e := Entered(q.limit, now, None);
    var h := HasWord(q.limit, now, None, s.word, v);
    CallEnters(q, s, 1, q.limit, now);
    CallEnters(q, With(s, 1, e), 2, q.limit, now);
    LoadsWord(q, With(With(s, 1, e), 2, e), 1);
    WithTwice(s, 1, 2, e, e, h);
    LoadsWord(q, With(With(s, 1, h), 2, e), 2);
    WithTwice(s, 1, 2, h, e, h);
    hide WindowOf, Pack, LowBits, Judge, Next, Step;
    var acts := [Call(1, q.limit, now), Call(2, q.limit, now), LoadWord(1), LoadWord(2)];
    Unroll4(q, s, acts);
    assert OpenTogether(q, now)[..4] == acts;
  }

  lemma JudgesOpening(q: Quota, s: State, tid: nat, n: nat, now: nat, from: nat)
    requires ThreadOf(s, tid) == HasWord(n, now, None, s.word, from) && n <= q.limit && WindowOf(q, now) > s.latest
    ensures Step(q, s, LoadLatest(tid)) ==
              With(s, tid, Opening(n, now, s.word, from, WindowOf(q, now), n, s.latest))
  {
    hide WindowOf, LowBits, CountOf, IndexOf;
  }

  lemma RaisesLatest(q: Quota, s: State, tid: nat)
    requires ThreadOf(s, tid).Opening?
    ensures var t := ThreadOf(s, tid);
            var over := Some(Over(t.word, t.window, t.from));
            Step(q, s, Raise(tid)) ==
              With(s, tid, Swapping(t.n, t.nowNs, over, t.word, t.from, t.window, t.total, t.seen))
                .(latest := Max(s.latest, t.window))
  {
  }

  lemma BothOpen(q: Quota, s: State, s4: State, v: nat, w: nat, now: nat)
    requires 1 <= q.limit <= U32_MAX && q.period > 0 && now <= U64_MAX && WindowOf(q, now) == w
    requires v < w && s.latest == v
    requires s4 == With(With(s, 1, HasWord(q.limit, now, None, s.word, v)), 2, HasWord(q.limit, now, None, s.word, v))
    ensures var t := Swapping(q.limit, now, Some(Over(s.word, w, v)), s.word, v, w, q.limit, v);
            Run(q, s4, OpenTogether(q, now)[4..8]) == With(With(s, 1, t), 2, t).(latest := w)
  {
    var h, o := HasWord(q.limit, now, None, s.word, v), Opening(q.limit, now, s.word, v, w, q.limit, v);
    var t := Swapping(q.limit, now, Some(Over(s.word, w, v)), s.word, v, w, q.limit, v);
    JudgesOpening(q, s4, 1, q.limit, now, v);
    WithTwice(s, 1, 2, h, h, o);
    JudgesOpening(q, With(With(s, 1, o), 2, h), 2, q.limit, now, v);
    WithTwice(s, 1, 2, o, h, o);
    RaisesLatest(q, With(With(s, 1, o), 2, o), 1);
    WithTwice(s, 1, 2, o, o, t);
    RaisesLatest(q, With(With(s, 1, t), 2, o).(latest := w), 2);
    WithTwice(s, 1, 2, t, o, t);
    hide WindowOf, Pack, LowBits, Judge, Next, Step;
    var acts := [LoadLatest(1), LoadLatest(2), Raise(1), Raise(2)];
    Unroll4(q, s4, acts);
    assert OpenTogether(q, now)[4..8] == acts;
  }

  lemma OpenTogetherDoubles(q: Quota, s: State, v: nat, w: nat, now: nat)
    requires 1 <= q.limit <= U32_MAX && q.period > 0 && now <= U64_MAX && WindowOf(q, now) == w
    requires v < w && LowBits(v) == LowBits(w)
    requires s == State(Pack(LowBits(v), q.limit), v, v, map[0 := Idle], [Admission(v, q.limit)])
    ensures AdmittedIn(Run(q, s, OpenTogether(q, now)).log, w) == 2 * q.limit
  {
    var acts := OpenTogether(q, now);
    assert acts == (acts[..4] + acts[4..8]) + [Swap(2, false)] + [Swap(1, false)];
    RunSnoc(q, s, (acts[..4] + acts[4..8]) + [Swap(2, false)], Swap(1, false));
    RunSnoc(q, s, acts[..4] + acts[4..8], Swap(2, false));
    RunAppend(q, s, acts[..4], acts[4..8]);
    BothJudge(q, s, v, w, now);
    BothOpen(q, s, Run(q, s, acts[..4]), v, w, now);
    var e := Admission(w, q.limit);
    assert Run(q, s, acts).log == s.log + [e] + [e];
    AdmittedInAppend(s.log + [e], e, w);
    AdmittedInAppend(s.log, e, w);
    AdmittedInAppend([], Admission(v, q.limit), w);
    assert [] + [Admission(v, q.limit)] == s.log;
  }

  /** `limit` respected in every run of readings from `windows`. */
  ghost predicate SafeOn(q: Quota, windows: set<nat>) {
    forall first, actions, w ::
      first in windows && ReadsWithin(q, actions, windows) ==>
        AdmittedIn(Run(q, Start(first), actions).log, w) <= q.limit
  }

  /** Exactly when it is safe. If two of the windows share their low 32 bits,
      two threads that open the later one together over a full earlier one both
      succeed, because the word each replaces has the same bits. */
  lemma SafeIffIndexInjective(q: Quota, windows: set<nat>)
    requires 1 <= q.limit <= U32_MAX && q.period > 0
    requires forall w :: w in windows ==> w * q.period <= U64_MAX
    ensures SafeOn(q, windows) <==> IndexInjective(windows)
  {
    if IndexInjective(windows) {
      forall first, actions, w | first in windows && ReadsWithin(q, actions, windows)
        ensures AdmittedIn(Run(q, Start(first), actions).log, w) <= q.limit
      {
        NoWindowOverAdmits(q, windows, first, actions);
      }
    } else {
      var v, w :| v in windows && w in windows && LowBits(v) == LowBits(w) && v < w;
      var fill, race := FillAlone(q, 0, v * q.period), OpenTogether(q, w * q.period);
      WindowStart(q, v);
      WindowStart(q, w);
      FillAloneFills(q, v, v * q.period);
      RunAppend(q, Start(v), fill, race);
      OpenTogetherDoubles(q, Run(q, Start(v), fill), v, w, w * q.period);
      assert ReadsWithin(q, fill + race, windows);
      assert AdmittedIn(Run(q, Start(v), fill + race).log, w) > q.limit;
    }
  }

  // ------------------------------------------------------------- one call alone

  /** What a call remembers of the window it opened: nothing while `latest` is as it
      found it, afterwards the word it opened the window over. */
  predicate Remembers(w: Words, window: nat, latest: nat, over: Option<Over>) {
    if latest == w.latest then over.None?
    else latest == window && over.Some? && over.value.word == w.word && over.value.window == window
  }

  /** The call of `n` units at `nowNs` is under way, begun on the words `w`, and nobody
      else has moved. */
  predicate Alone(q: Quota, w: Words, n: nat, nowNs: nat, s: State, t: Thread) {
    var window := Max(WindowOf(q, nowNs), w.latest);
    var total := CountIn(window, w.word, w.latest) + n;
    && s.word == w.word && 0 < n <= q.limit && !DenyAll(q) && nowNs <= U64_MAX
    && match t
       case Idle => false
       case Entered(n', t', over) => n' == n && t' == nowNs && Remembers(w, window, s.latest, over)
       case HasWord(n', t', over, word, _) =>
         n' == n && t' == nowNs && word == w.word && Remembers(w, window, s.latest, over)
       case Opening(n', t', word, _, window', total', _) =>
         && n' == n && t' == nowNs && word == w.word && window' == window > w.latest == s.latest
         && total' == total <= q.limit
       case Swapping(n', t', over, word, _, window', total', _) =>
         && n' == n && t' == nowNs && word == w.word && window' == window == s.latest
         && total' == total <= q.limit && Remembers(w, window, s.latest, over)
  }

  /** Such a call goes on, or returns what the sequential check decides, and leaves
      the words that check leaves: however often its swap fails spuriously, and whatever
      the low bits of the windows. */
  lemma AloneGoesOn(q: Quota, w: Words, n: nat, nowNs: nat, s: State, a: Action)
    requires Alone(q, w, n, nowNs, s, ThreadOf(s, a.tid))
    ensures var (s', r) := Next(q, s, a);
            if r.None? then Alone(q, w, n, nowNs, s', ThreadOf(s', a.tid))
            else Acquire(q, w, n, nowNs) == (r.value.decision, Words(s'.word, s'.latest))
  {
    hide WindowOf, LowBits, IndexOf, CountOf, UntilEndOf, Pack;
  }

  /** The first action of `tid` at which its call returns, and nothing before it. */
  ghost predicate ReturnsAt(q: Quota, s: State, actions: seq<Action>, tid: nat) {
    && actions != [] && (forall a :: a in actions ==> a.tid == tid)
    && (forall i: nat {:trigger actions[i]} :: i < |actions| ==>
          (Next(q, Run(q, s, actions[..i]), actions[i]).1.Some? <==> i == |actions| - 1))
  }

  lemma {:induction false} AloneAllAlong(q: Quota, w: Words, n: nat, nowNs: nat, s: State, actions: seq<Action>,
                                         tid: nat, k: nat)
    requires Alone(q, w, n, nowNs, s, ThreadOf(s, tid)) && ReturnsAt(q, s, actions, tid) && k < |actions|
    ensures var r := Run(q, s, actions[..k]); Alone(q, w, n, nowNs, r, ThreadOf(r, tid))
  {
    hide Alone, Next;
    if k > 0 {
      AloneAllAlong(q, w, n, nowNs, s, actions, tid, k - 1);
      assert actions[..k][..k - 1] == actions[..k - 1];
      assert actions[k - 1] in actions;
      AloneGoesOn(q, w, n, nowNs, Run(q, s, actions[..k - 1]), actions[k - 1]);
    }
  }

  /** A call made while nobody else moves, through any number of spurious failures,
      returns what the sequential check decides and leaves the words it leaves. Unlike
      the bound on a window, this holds for all windows. */
  lemma AloneIsSequential(q: Quota, s: State, tid: nat, n: nat, now: nat, actions: seq<Action>)
    requires ThreadOf(s, tid).Idle? && Next(q, s, Call(tid, n, now)).1.None?
    requires ReturnsAt(q, Step(q, s, Call(tid, n, now)), actions, tid)
    ensures var begun := Step(q, s, Call(tid, n, now));
            var last := |actions| - 1;
            var (s', r) := Next(q, Run(q, begun, actions[..last]), actions[last]);
            Acquire(q, Words(s.word, s.latest), n, now) == (r.value.decision, Words(s'.word, s'.latest))
  {
    var begun, w, last := Step(q, s, Call(tid, n, now)), Words(s.word, s.latest), |actions| - 1;
    assert Alone(q, w, n, Clamp64(now), begun, ThreadOf(begun, tid));
    assert Acquire(q, w, n, now) == Acquire(q, w, n, Clamp64(now));
    hide Alone, Next, Acquire, Step;
    AloneAllAlong(q, w, n, Clamp64(now), begun, actions, tid, last);
    assert actions[last] in actions;
    AloneGoesOn(q, w, n, Clamp64(now), Run(q, begun, actions[..last]), actions[last]);
  }
}
