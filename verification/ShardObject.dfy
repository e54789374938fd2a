/** The shard as the object the code has (src/store.rs:868-1135, 1310-1504): slots,
    index and cursors changed in place, and a `Recovery` object beside them,
    proved against the functions of `Shard`. */
module ShardObject {
  import opened Units
  import opened Probe
  import opened RecoveryTable
  import opened RecoveryCover
  import opened RecoveryObject
  import S = Shard

  class ShardMap<T(!new)> {
    const c: S.Config<T>
    var slots: seq<S.Slot<T>>
    var index: set<(nat, nat)>
    var hand: nat
    var sweep: nat
    var recovery: Recovery
    ghost var marks: S.Marks

    ghost predicate Valid()
      reads this, recovery, recovery.records, recovery.cells
    {
      Sound(c.g) && recovery.Valid() && recovery.g == c.g && recovery.dropped == c.forget
    }

    ghost function View(): S.Shard<T>
      reads this, recovery, recovery.records, recovery.cells
    {
      S.Shard(slots, index, hand, sweep, recovery.Contents(), marks)
    }

    /** The table's arrays are those it had, or were allocated since. */
    twostate predicate Framed()
      reads this, recovery
    {
      recovery == old(recovery) &&
      ((recovery.records == old(recovery.records) && recovery.cells == old(recovery.cells)) ||
       (fresh(recovery.records) && fresh(recovery.cells)))
    }

    constructor (c: S.Config<T>)
      requires Sound(c.g)
      ensures Valid() && View() == S.NewShard() && this.c == c
      ensures fresh(recovery) && fresh(recovery.records) && fresh(recovery.cells)
    {
      this.c := c;
      slots, index, hand, sweep := [], {}, 0, 0;
      recovery := new Recovery(c.g, c.forget);
      marks := S.UNMARKED;
    }

    // --------------------------------------------------------------- index

    method Position(hash: nat, key: nat) returns (pos: Option<nat>)
      ensures pos == S.Position(View(), hash, key)
    {
      var n: nat := |slots|;
      while n > 0
        invariant n <= |slots|
        invariant S.PositionIn(View(), hash, key, n) == S.Position(View(), hash, key)
      {
        n := n - 1;
        if (hash, n) in index && slots[n].hash == hash && slots[n].key == key {
          assert S.Matches(View(), hash, key, n);
          return Some(n);
        }
      }
      return None;
    }

    method Insert(slot: S.Slot<T>)
      modifies this`slots, this`index
      ensures View() == S.Insert(old(View()), slot)
    {
      index := index + {(slot.hash, |slots|)};
      slots := slots + [slot];
    }

    /** `remove_at`, by swap-remove. */
    method RemoveAt(pos: nat)
      requires pos < |slots|
      modifies this`slots, this`index
      ensures View() == S.RemoveAt(old(View()), pos)
    {
      var last := |slots| - 1;
      var moved := slots[last].hash;
      index := index - {(slots[pos].hash, pos)};
      if pos != last {
        index := index - {(moved, last)} + {(moved, pos)};
      }
      slots := slots[pos := slots[last]][..last];
    }

    // ------------------------------------------------------------ eviction

    /** `Slot::recovers_at`, on the slot at `pos`. */
    method Refresh(pos: nat, now: nat)
      requires pos < |slots|
      modifies this`slots
      ensures slots == old(slots)[pos := S.Refreshed(c.ops, old(slots[pos]), now)]
    {
      var x := slots[pos];
      if x.hint == S.UNKNOWN || x.referenced {
        slots := slots[pos := x.(hint := S.ExactHint(c.ops, x.state, now), state := c.ops.look(x.state, now))];
      } else if x.hint == Millis(now) + 1 {
        var hint := if c.ops.isFull(x.state, now) then 0 else x.hint;
        slots := slots[pos := x.(hint := hint, state := c.ops.look(x.state, now))];
      }
    }

    method Evictable(pos: nat, now: nat) returns (verdict: S.Verdict)
      requires Valid() && pos < |slots|
      modifies this`slots
      ensures Valid() && (View(), verdict) == S.Evictable(c, old(View()), pos, now)
    {
      hide HasExactRoom, S.Refreshed;
      Refresh(pos, now);
      var x := slots[pos];
      if x.hint <= Millis(now) { return S.Recovered; }
      if !x.seeded { return S.Owing; }
      var room := recovery.HasRoom(x.hash, Millis(now));
      return if room then S.Owing else S.No(x.hint);
    }

    method EvictAt(pos: nat, recovered: bool, now: nat)
      requires Valid() && pos < |slots|
      modifies this, recovery, recovery.records, recovery.cells
      ensures Valid() && Framed() && View() == S.EvictAt(c, old(View()), pos, recovered, now)
    {
      hide RecordDebt, S.RemoveAt;
      var x := slots[pos];
      var debt := c.ops.debt(x.state, now);
      if !recovered && debt.Some? {
        var until := CeilMillis(debt.value.until);
        ghost var t := recovery.Contents();
        var kind := recovery.Save(x.hash, debt.value.spent, until, Millis(now), x.seeded);
        if kind.None? {
          slots := slots[pos := x.(state := c.ops.look(x.state, now))];
          return;
        }
        ghost var o := RecordDebt(c.g, t, x.hash, debt.value.spent, until, Millis(now), c.forget, x.seeded);
        ghost var due := Due(IdOf(c.g, x.hash), debt.value.spent, until, x.key in marks.keys);
        marks := S.MarksRecorded(c.g, marks, t, x.hash, x.key, due, o, Millis(now), c.forget);
      }
      RemoveAt(pos);
    }

    method SweepOne(now: nat, ttl: nat)
      requires Valid() && |slots| > 0
      modifies this, recovery, recovery.records, recovery.cells
      ensures Valid() && Framed() && View() == S.SweepOne(c, old(View()), now, ttl)
    {
      hide S.Evictable, S.EvictAt, S.Expired;
      if sweep >= |slots| { sweep := 0; }
      if S.Expired(slots[sweep], Millis(now), Some(ttl)) {
        var verdict := Evictable(sweep, now);
        match verdict
        case Recovered => EvictAt(sweep, true, now);
        case Owing => EvictAt(sweep, false, now);
        case No(_) => sweep := sweep + 1;
      } else {
        sweep := sweep + 1;
      }
    }

    /** `sweep_idle`. */
    method SweepIdle(now: nat, ttl: nat, steps: nat)
      requires Valid()
      modifies this, recovery, recovery.records, recovery.cells
      ensures Valid() && Framed() && View() == S.SweepIdle(c, old(View()), now, ttl, steps)
    {
      hide S.SweepOne;
      var i := 0;
      while i < steps && |slots| > 0
        invariant i <= steps && Valid() && Framed()
        invariant S.SweepIdle(c, View(), now, ttl, steps - i) == S.SweepIdle(c, old(View()), now, ttl, steps)
      {
        SweepOne(now, ttl);
        i := i + 1;
      }
    }

    method FinishEviction(pos: nat, recovered: bool, now: nat)
      requires Valid() && pos < |slots|
      modifies this, recovery, recovery.records, recovery.cells
      ensures Valid() && Framed() && View() == S.FinishEviction(c, old(View()), pos, recovered, now)
    {
      hide S.EvictAt;
      EvictAt(pos, recovered, now);
      hand := pos + 1;
    }

    /** The first pass of `evict_one`, from `first` on. */
    method FirstPass(start: nat, first: nat, scan: nat, now: nat) returns (done: bool, owing: Option<nat>,
                     earliest: nat)
      requires Valid() && |slots| > 0 && first <= scan
      modifies this, recovery, recovery.records, recovery.cells
      ensures Valid() && Framed()
      ensures S.Scan(View(), done, owing, earliest)
           == S.FirstPass(c, S.Scan(old(View()), false, None, S.UNKNOWN), start, first, scan, now)
    {
      hide S.Evictable, S.EvictAt, S.SecondChance, S.At;
      var step := first;
      done, owing, earliest := false, None, S.UNKNOWN;
      while step < scan
        invariant step <= scan && Valid() && Framed() && |slots| > 0 && !done
        invariant owing.Some? ==> owing.value < |slots|
        invariant S.FirstPass(c, S.Scan(View(), false, owing, earliest), start, step, scan, now)
               == S.FirstPass(c, S.Scan(old(View()), false, None, S.UNKNOWN), start, first, scan, now)
      {
        var pos := S.At(start, step, |slots|);
        if S.SecondChance(slots[pos], Millis(now), c.ttl) {
          slots := slots[pos := slots[pos].(referenced := false, hint := S.UNKNOWN)];
        } else {
          var verdict := Evictable(pos, now);
          match verdict
          case Recovered =>
            FinishEviction(pos, true, now);
            done := true;
            return;
          case Owing => if owing.None? { owing := Some(pos); }
          case No(at) => earliest := Min(earliest, at);
        }
        step := step + 1;
      }
    }

    /** The second pass, over the same slots. */
    method SecondPass(start: nat, first: nat, scan: nat, now: nat, owing: Option<nat>,
                      known: nat) returns (done: bool, earliest: nat)
      requires Valid() && |slots| > 0 && first <= scan
      modifies this, recovery, recovery.records, recovery.cells
      ensures Valid() && Framed()
      ensures S.Scan(View(), done, owing, earliest)
           == S.SecondPass(c, S.Scan(old(View()), false, owing, known), start, first, scan, now)
    {
      hide S.Evictable, S.EvictAt, S.At;
      var step := first;
      done, earliest := false, known;
      while step < scan
        invariant step <= scan && Valid() && Framed() && |slots| > 0 && !done
        invariant S.SecondPass(c, S.Scan(View(), false, owing, earliest), start, step, scan, now)
               == S.SecondPass(c, S.Scan(old(View()), false, owing, known), start, first, scan, now)
      {
        var pos := S.At(start, step, |slots|);
        var verdict := Evictable(pos, now);
        match verdict
        case Recovered =>
          FinishEviction(pos, true, now);
          done := true;
          return;
        case Owing =>
          FinishEviction(pos, false, now);
          done := true;
          return;
        case No(at) => earliest := Min(earliest, at);
        step := step + 1;
      }
    }

    /** `evict_one`: `Some` is the earliest recovery, if nothing could go. */
    method EvictOne(now: nat) returns (err: Option<nat>)
      requires Valid()
      modifies this, recovery, recovery.records, recovery.cells
      ensures Valid() && Framed() && (View(), err) == S.EvictOne(c, old(View()), now)
    {
      hide S.FirstPass, S.SecondPass, S.EvictAt;
      if |slots| == 0 { return None; }
      var start, scan := if hand >= |slots| then 0 else hand, Min(S.CLOCK_SCAN, |slots|);
      var done, owing, earliest := FirstPass(start, 0, scan, now);
      if done { return None; }
      if owing.Some? {
        FinishEviction(owing.value, false, now);
        return None;
      }
      done, earliest := SecondPass(start, 0, scan, now, owing, earliest);
      return if done then None else Some(earliest);
    }

    method MakeRoom(now: nat) returns (err: Option<nat>)
      requires Valid()
      modifies this, recovery, recovery.records, recovery.cells
      ensures Valid() && Framed() && (View(), err) == S.MakeRoom(c, old(View()), now)
    {
      hide S.SweepIdle, S.EvictOne;
      if c.ttl.Some? { SweepIdle(now, c.ttl.value, S.TTL_SWEEP); }
      if |slots| >= c.cap {
        err := EvictOne(now);
      } else {
        err := None;
      }
    }

    // -------------------------------------------------------------- checks

    method CheckStored(pos: nat, n: nat, now: nat) returns (d: Decision)
      requires pos < |slots|
      modifies this`slots
      ensures (View(), d) == S.CheckStored(c, old(View()), pos, n, now)
    {
      var x := slots[pos];
      var (decision, s) := c.ops.acquire(x.state, n, now);
      var seen := if c.ttl.Some? then Max(x.lastSeen, Millis(now)) else x.lastSeen;
      slots := slots[pos := x.(state := s, referenced := true, lastSeen := seen)];
      d := decision;
    }

    /** The end of `check` for a newcomer, once there is room. */
    method Admit(key: nat, created: T, n: nat, now: nat) returns (d: Decision)
      requires Valid()
      modifies this, recovery.records
      ensures Valid() && recovery == old(recovery) && recovery.records == old(recovery.records)
              && recovery.cells == old(recovery.cells)
      ensures (View(), d) == S.Admit(c, old(View()), key, created, n, now)
    {
      hide S.FirstHint, Take;
      var h := c.hash(key);
      ghost var t := recovery.Contents();
      var charge := recovery.Collect(h, Millis(now));
      var s := created;
      if charge.Some? { s := c.ops.restore(s, S.FromMillis(charge.value), now); }
      var (decision, s1) := c.ops.acquire(s, n, now);
      var (hint, s2) := S.FirstHint(c.ops, s1, charge.Some?, n, decision, now);
      var shared := charge.Some? && charge.value.shared;
      marks := S.MarksTaken(c.g, marks, t, h, key, shared, Millis(now));
      Insert(S.Slot(s2, false, shared, Millis(now), hint, h, key));
      d := decision;
    }

    /** `check`, and whether it refused to store the key. */
    method Check(key: nat, n: nat, now: nat) returns (d: Decision, refused: bool)
      requires Valid()
      modifies this, recovery, recovery.records, recovery.cells
      ensures Valid() && Framed() && S.Checked(View(), d, refused) == S.Check(c, old(View()), key, n, now)
    {
      hide S.Position, S.MakeRoom, S.Admit;
      var pos := Position(c.hash(key), key);
      if pos.Some? {
        d := CheckStored(pos.value, n, now);
        return d, false;
      }
      var created := c.ops.create(key, now);
      if created.None? { return S.ClosedDecision(n), false; }
      var err := MakeRoom(now);
      if err.Some? {
        return Deny(Max(SatSub(err.value, Millis(now)), 1) * NANOS_PER_MILLI), true;
      }
      d := Admit(key, created.value, n, now);
      return d, false;
    }

    // -------------------------------------------------------------- retain

    method RetainOne(pos: nat, now: nat)
      requires pos < |slots|
      modifies this`slots, this`index
      ensures View() == S.RetainOne(c, old(View()), pos, now)
    {
      hide S.RemoveAt;
      var x := slots[pos];
      slots := slots[pos := x.(state := c.ops.look(x.state, now))];
      if c.ops.isFull(x.state, now) { RemoveAt(pos); }
    }

    /** One locked chunk of `retain_recent`, down from `from`. */
    method RetainChunk(from: nat, now: nat) returns (stop: nat)
      requires Valid()
      modifies this
      ensures Valid() && (recovery == old(recovery) || fresh(recovery))
      ensures (View(), stop) == S.RetainChunk(c, old(View()), from, now)
    {
      hide S.RetainOne, IsSpent;
      var top := Min(from, |slots|);
      stop := SatSub(top, S.RETAIN_CHUNK);
      var cursor := top;
      while cursor > stop
        invariant stop <= cursor <= |slots| && recovery == old(recovery) && Valid()
        invariant recovery.records == old(recovery.records) && recovery.cells == old(recovery.cells)
        invariant S.RetainDown(c, View(), cursor, stop, now) == S.RetainDown(c, old(View()), top, stop, now)
      {
        RetainedSize(View(), cursor - 1, now);
        RetainOne(cursor - 1, now);
        cursor := cursor - 1;
      }
      if cursor == 0 {
        var spent := recovery.AllExpired(Millis(now));
        if spent { recovery := new Recovery(c.g, c.forget); }
      }
    }

    lemma RetainedSize(sh: S.Shard<T>, pos: nat, now: nat)
      requires pos < |sh.slots|
      ensures |S.RetainOne(c, sh, pos, now).slots| >= pos
    {
      hide S.RemoveAt;
    }
  }
}
