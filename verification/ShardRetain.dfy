/** `retain_recent` on one shard (src/store.rs:1471-1504): walked downward in
    chunks, with swap-removes, it forgets exactly the keys that are whole. */
module ShardRetain {
  import opened Units
  import opened RecoveryTable
  import opened KeyLaws
  import opened Shard
  import opened ShardIndex

  /** The whole pass: chunk after chunk, nothing else happening in between. */
  function RetainAll<S>(c: Config<S>, sh: Shard<S>, cursor: nat, now: nat): Shard<S>
    decreases cursor
  {
    var (sh1, stop) := RetainChunk(c, sh, cursor, now);
    if stop == 0 then sh1 else RetainAll(c, sh1, stop, now)
  }

  /** The slot as reading it leaves it. */
  function Read<S>(o: KeyOps<S>, x: Slot<S>, now: nat): Slot<S> { x.(state := o.look(x.state, now)) }

  /** The slots of `xs` that are not whole, as reading them leaves them. */
  ghost function Survivors<S(!new)>(o: KeyOps<S>, xs: seq<Slot<S>>, now: nat): set<Slot<S>> {
    set x | x in xs && !o.isFull(x.state, now) :: Read(o, x, now)
  }

  lemma SurvivorsSplit<S(!new)>(o: KeyOps<S>, xs: seq<Slot<S>>, ys: seq<Slot<S>>, now: nat)
    ensures Survivors(o, xs + ys, now) == Survivors(o, xs, now) + Survivors(o, ys, now)
  {
    hide Read;
    var all := xs + ys;
    assert forall x :: x in all <==> x in xs || x in ys;
  }

  /** Members of a tail with its head replaced, or filled from the end. */
  lemma TailReplaced<S(!new)>(xs: seq<Slot<S>>, p: nat, y: Slot<S>)
    requires p < |xs|
    ensures Members(xs[p := y][p..]) == {y} + Members(xs[p + 1..]) && xs[p := y][..p] == xs[..p]
  {
    var r := xs[p := y];
    assert r[p..] == [y] + xs[p + 1..];
  }

  lemma TailFilled<S(!new)>(xs: seq<Slot<S>>, p: nat)
    requires p < |xs|
    ensures var last := |xs| - 1;
            var r := xs[p := xs[last]][..last];
            Members(r[p..]) == Members(xs[p + 1..]) && r[..p] == xs[..p]
  {
    var last := |xs| - 1;
    var r := xs[p := xs[last]][..last];
    if p < last {
      assert r[p..] == [xs[last]] + xs[p + 1..last];
      assert xs[p + 1..] == xs[p + 1..last] + [xs[last]];
    } else {
      assert r[p..] == [] && xs[p + 1..] == [];
    }
  }

  lemma TailFilledSame<S(!new)>(xs: seq<Slot<S>>, p: nat, y: Slot<S>)
    requires p < |xs|
    ensures xs[p := y][p + 1..] == xs[p + 1..] && xs[p := y][..p] == xs[..p]
  {
  }

  lemma OneSurvivor<S(!new)>(o: KeyOps<S>, x: Slot<S>, now: nat)
    ensures Survivors(o, [x], now) == if o.isFull(x.state, now) then {} else {Read(o, x, now)}
  {
    hide Read;
    assert x in [x];
  }

  /** One step: the slot survives, read, or is gone. */
  lemma RetainOneIs<S(!new)>(c: Config<S>, sh: Shard<S>, pos: nat, now: nat)
    requires pos < |sh.slots|
    ensures var r := RetainOne(c, sh, pos, now);
            && pos <= |r.slots| && r.slots[..pos] == sh.slots[..pos] && r.table == sh.table
            && Members(r.slots[pos..]) == Survivors(c.ops, [sh.slots[pos]], now) + Members(sh.slots[pos + 1..])
  {
    hide Members;
    var x := sh.slots[pos];
    var y := Read(c.ops, x, now);
    var read := sh.(slots := sh.slots[pos := y]);
    OneSurvivor(c.ops, x, now);
    TailReplaced(sh.slots, pos, y);
    TailFilledSame(sh.slots, pos, y);
    TailFilled(read.slots, pos);
  }

  lemma Slices<S(!new)>(xs: seq<Slot<S>>, ys: seq<Slot<S>>, stop: nat, pos: nat)
    requires stop <= pos < |xs| && pos <= |ys| && ys[..pos] == xs[..pos]
    ensures ys[..stop] == xs[..stop] && ys[stop..pos] == xs[stop..pos]
    ensures xs[stop..pos] + [xs[pos]] == xs[stop..pos + 1]
  {
    assert ys[..stop] == ys[..pos][..stop];
    assert xs[..stop] == xs[..pos][..stop];
    assert ys[stop..pos] == ys[..pos][stop..];
    assert xs[stop..pos] == xs[..pos][stop..];
  }

  lemma NoSurvivors<S(!new)>(o: KeyOps<S>, now: nat)
    ensures Survivors<S>(o, [], now) == {}
  {
  }

  lemma {:induction false} RetainDownIs<S(!new)>(c: Config<S>, sh: Shard<S>, cursor: nat, stop: nat, now: nat)
    requires stop <= cursor <= |sh.slots|
    ensures var r := RetainDown(c, sh, cursor, stop, now);
            && stop <= |r.slots| && r.slots[..stop] == sh.slots[..stop] && r.table == sh.table
            && Members(r.slots[stop..]) == Survivors(c.ops, sh.slots[stop..cursor], now) + Members(sh.slots[cursor..])
    decreases cursor
  {
    hide Members, RetainOne, Survivors;
    if cursor == stop {
      assert sh.slots[stop..cursor] == [];
      NoSurvivors(c.ops, now);
    } else {
      var pos := cursor - 1;
      var sh1 := RetainOne(c, sh, pos, now);
      RetainOneIs(c, sh, pos, now);
      RetainDownIs(c, sh1, pos, stop, now);
      Slices(sh.slots, sh1.slots, stop, pos);
      SurvivorsSplit(c.ops, sh.slots[stop..pos], [sh.slots[pos]], now);
    }
  }

  lemma ChunkIs<S(!new)>(c: Config<S>, sh: Shard<S>, cursor: nat, now: nat)
    requires cursor <= |sh.slots|
    ensures var (r, stop) := RetainChunk(c, sh, cursor, now);
            && stop == SatSub(cursor, RETAIN_CHUNK) <= |r.slots| && r.slots[..stop] == sh.slots[..stop]
            && Members(r.slots[stop..]) == Survivors(c.ops, sh.slots[stop..cursor], now) + Members(sh.slots[cursor..])
  {
    RetainDownIs(c, sh, cursor, SatSub(cursor, RETAIN_CHUNK), now);
    hide Members, RetainDown, Survivors, IsSpent;
  }

  lemma {:induction false} RetainAllIs<S(!new)>(c: Config<S>, sh: Shard<S>, cursor: nat, now: nat)
    requires cursor <= |sh.slots|
    ensures Members(RetainAll(c, sh, cursor, now).slots) ==
              Survivors(c.ops, sh.slots[..cursor], now) + Members(sh.slots[cursor..])
    decreases cursor
  {
    hide Members, RetainChunk, Survivors;
    ChunkIs(c, sh, cursor, now);
    var (r, stop) := RetainChunk(c, sh, cursor, now);
    assert sh.slots[..cursor] == sh.slots[..stop] + sh.slots[stop..cursor];
    if stop == 0 {
      assert r.slots[stop..] == r.slots && sh.slots[..cursor] == sh.slots[stop..cursor];
    } else {
      RetainAllIs(c, r, stop, now);
      SurvivorsSplit(c.ops, sh.slots[..stop], sh.slots[stop..cursor], now);
    }
  }

  lemma SurvivorKeys<S(!new)>(o: KeyOps<S>, xs: seq<Slot<S>>, now: nat)
    ensures forall k :: Stored(Survivors(o, xs, now), k) <==>
                          exists x :: x in Members(xs) && x.key == k && !o.isFull(x.state, now)
  {
    forall x | x in xs && !o.isFull(x.state, now) ensures Read(o, x, now) in Survivors(o, xs, now)
      && Read(o, x, now).key == x.key {
    }
  }

  /** Despite swaps and chunking, the pass forgets exactly the whole keys: a slot
      is stored afterwards if and only if it was before and its key owed
      something, and reading is all that happened to it. */
  lemma RetainForgetsExactlyTheWhole<S(!new)>(c: Config<S>, sh: Shard<S>, now: nat)
    ensures Content(RetainAll(c, sh, |sh.slots|, now)) == Survivors(c.ops, sh.slots, now)
    ensures forall k :: Stored(Content(RetainAll(c, sh, |sh.slots|, now)), k) <==>
                          exists x :: x in Content(sh) && x.key == k && !c.ops.isFull(x.state, now)
  {
    RetainAllIs(c, sh, |sh.slots|, now);
    assert sh.slots[..|sh.slots|] == sh.slots && sh.slots[|sh.slots|..] == [];
    var r := Content(RetainAll(c, sh, |sh.slots|, now));
    assert r == Survivors(c.ops, sh.slots, now);
    SurvivorKeys(c.ops, sh.slots, now);
    hide Survivors, RetainAll;
  }

  /** A cursor past the end, as the code starts with, is the end. */
  lemma AnyStartWillDo<S(!new)>(c: Config<S>, sh: Shard<S>, cursor: nat, now: nat)
    requires cursor >= |sh.slots|
    ensures RetainAll(c, sh, cursor, now) == RetainAll(c, sh, |sh.slots|, now)
  {
    hide RetainDown, IsSpent;
    assert RetainChunk(c, sh, cursor, now) == RetainChunk(c, sh, |sh.slots|, now);
  }

  // ------------------------------------------------------- the index survives

  lemma {:induction false} RetainDownIndexes<S(!new)>(c: Config<S>, sh: Shard<S>, cursor: nat, stop: nat, now: nat)
    requires Indexed(c, sh) && cursor <= |sh.slots|
    ensures Indexed(c, RetainDown(c, sh, cursor, stop, now))
    decreases cursor
  {
    hide Indexed, RemoveAt;
    if cursor > stop {
      var pos := cursor - 1;
      var y := Read(c.ops, sh.slots[pos], now);
      ReplaceIndexes(c, sh, pos, y);
      RemoveIndexes(c, sh.(slots := sh.slots[pos := y]), pos);
      RetainDownIndexes(c, RetainOne(c, sh, pos, now), pos, stop, now);
    }
  }

  /** The pass keeps the index a bijection. */
  lemma {:induction false} RetainAllIndexes<S(!new)>(c: Config<S>, sh: Shard<S>, cursor: nat, now: nat)
    requires Indexed(c, sh)
    ensures Indexed(c, RetainAll(c, sh, cursor, now))
    decreases cursor
  {
    var from := Min(cursor, |sh.slots|);
    RetainDownIndexes(c, sh, from, SatSub(from, RETAIN_CHUNK), now);
    var (r, stop) := RetainChunk(c, sh, cursor, now);
    assert Indexed(c, r);
    hide Indexed, RetainChunk;
    if stop != 0 { RetainAllIndexes(c, r, stop, now); }
  }
}
