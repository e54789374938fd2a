/** What recording a debt does to the table (src/store.rs:631-759): the map the
    exact table holds, the one debt a full table may push out of it, and when
    a debt that must stay out of the sketch finds a place. */
module RecoveryRecord {
  import opened Units
  import opened Probe
  import opened RecoveryTable
  import opened RecoveryFacts

  /** The debt as it is written. */
  function DebtOf(g: Geometry, h: nat, spent: nat, until: nat, inherited: bool): Record {
    Record(g.tagOf(h), spent, Min(until, RECORD_UNTIL_MAX), inherited)
  }

  /** What the exact table is asked to hold. */
  ghost function Wanted(m: map<Id, Record>, id: Id, debt: Record): map<Id, Record> {
    m[id := if id in m then Merged(m[id], debt) else debt]
  }

  /** Only a debt pushed out of the exact table reaches the sketch, and none does
      under Forget. */
  ghost predicate CellsFollow(g: Geometry, t: Table, o: Outcome, now: nat, forget: bool)
    requires Sound(g) && Allocated(g, t)
  {
    o.table.cells ==
      if o.spilled.Some? && !forget then Overflow(g, t, o.spilled.value.record, o.spilled.value.bucket, now).cells
      else t.cells
  }

  /** How the answer tells what became of the debts. */
  ghost predicate Answers(o: Outcome, forget: bool) {
    o.result == if o.spilled.None? then Some(Exact) else if forget then Some(Forgotten) else Some(Overflowed)
  }

  /** The debt is kept: the exact table holds all it was asked to, but for at
      most one debt of its own, and the sketch has that one. */
  ghost predicate Keeps(g: Geometry, t: Table, o: Outcome, now: nat, forget: bool, wanted: map<Id, Record>)
    requires Sound(g) && Allocated(g, t)
  {
    && Allocated(g, o.table) && Answers(o, forget) && CellsFollow(g, t, o, now, forget)
    && HoldsAllBut(g, o.table, now, wanted, o.spilled)
  }

  lemma SpillKeeps(g: Geometry, t: Table, u: Table, left: Homeless, now: nat, forget: bool, wanted: map<Id, Record>)
    requires Sound(g) && Allocated(g, t) && Allocated(g, u) && u.cells == t.cells
    requires HoldsAllBut(g, u, now, wanted, Some(left))
    ensures Keeps(g, t, Spill(g, u, left.record, left.bucket, now, forget), now, forget, wanted)
  {
    hide Holds, MergeCell;
    var o := Spill(g, u, left.record, left.bucket, now, forget);
    HoldsSame(g, u, o.table, now, wanted - {IdAt(g, left.bucket, left.record.tag)});
  }

  /** With no place of its own and none to be had, a debt is the one left over. */
  lemma HomelessAtOnce(g: Geometry, t: Table, debt: Record, home: nat, now: nat, m: map<Id, Record>)
    requires Sound(g) && home < g.buckets && Holds(g, t, now, m)
    requires Movable(debt, now) && IdAt(g, home, debt.tag) !in m
    ensures HoldsAllBut(g, t, now, m[IdAt(g, home, debt.tag) := debt], Some(Homeless(debt, home)))
  {
    hide Holds;
    var id := IdAt(g, home, debt.tag);
    assert m[id := debt] - {id} == m;
  }

  lemma WalkedKeeps(g: Geometry, t: Table, w: Walked, now: nat, forget: bool, wanted: map<Id, Record>)
    requires Sound(g) && Allocated(g, t) && Allocated(g, w.table) && w.table.cells == t.cells
    requires HoldsAllBut(g, w.table, now, wanted, w.left)
    ensures var o := if w.left.None? then Outcome(w.table, Some(Exact), None)
                     else Spill(g, w.table.(backoff := WALK_BACKOFF), w.left.value.record, w.left.value.bucket,
                       now, forget);
            Keeps(g, t, o, now, forget, wanted)
  {
    if w.left.Some? {
      hide Holds, MergeCell, Spill;
      var u := w.table.(backoff := WALK_BACKOFF);
      HoldsSame(g, w.table, u, now, wanted - {IdAt(g, w.left.value.bucket, w.left.value.record.tag)});
      SpillKeeps(g, t, u, w.left.value, now, forget, wanted);
    }
  }

  /** Whichever bucket can give a record up, nothing held is lost; and a debt
      is turned away only if it is inherited and neither can. */
  lemma DisplaceKeeps(g: Geometry, t: Table, debt: Record, home: nat, now: nat, forget: bool, kicks: nat, m: map<Id,
                      Record>)
    requires Sound(g) && Allocated(g, t) && home < g.buckets && kicks > 0 && Holds(g, t, now, m)
    requires Live(debt, now) && IdAt(g, home, debt.tag) !in m
    ensures var o := Displace(g, t, debt, home, now, forget, kicks);
            var other := g.alt(home, debt.tag);
            var stuck := MovableIn(t, home, now).None? && MovableIn(Turned(t), other, now).None?;
            if stuck && debt.inherited then
              o == Outcome(Turned(Turned(t)), None, None)
            else
              Keeps(g, t, o, now, forget, m[IdAt(g, home, debt.tag) := debt])
  {
    hide Holds, MergeCell, MovableIn, Walk, Spill;
    var t1, t2 := Turned(t), Turned(Turned(t));
    var other := g.alt(home, debt.tag);
    HoldsSame(g, t, t1, now, m);
    HoldsSame(g, t, t2, now, m);
    MovingKeepsId(g, home, debt.tag);
    var wanted := m[IdAt(g, home, debt.tag) := debt];
    var first, second := MovableIn(t, home, now), MovableIn(t1, other, now);
    if first.Some? {
      WalkKeeps(g, t1, home, first.value, debt, now, kicks, m);
      WalkedKeeps(g, t, Walk(g, t1, home, first.value, debt, now, kicks), now, forget, wanted);
    } else if second.Some? {
      WalkKeeps(g, t2, other, second.value, debt, now, kicks, m);
      WalkedKeeps(g, t, Walk(g, t2, other, second.value, debt, now, kicks), now, forget, wanted);
    } else if !debt.inherited {
      HomelessAtOnce(g, t2, debt, home, now, m);
      SpillKeeps(g, t, t2, Homeless(debt, home), now, forget, wanted);
    }
  }

  /** Both of the key's buckets are full. */
  predicate Full(g: Geometry, t: Table, h: nat, now: nat)
    requires Sound(g) && Allocated(g, t)
  {
    FreeIn(t, g.homeOf(h), now).None? && FreeIn(t, g.alt(g.homeOf(h), g.tagOf(h)), now).None?
  }

  /** A debt is pushed out to the sketch only if the key has no record and neither of
      its buckets has a free one. */
  lemma SpillsOnlyWhenFull(g: Geometry, t0: Table, h: nat, spent: nat, until: nat, now: nat, forget: bool,
                           inherited: bool)
    requires Sound(g) && WF(g, t0)
    ensures RecordDebt(g, t0, h, spent, until, now, forget, inherited).spilled.Some? ==>
              Allocated(g, t0) && Own(g, t0, h, now).None? && Full(g, t0, h, now)
  {
    hide Own, Displace, Spill;
    if t0.records == [] {
      assert Allocate(g, t0).records[4 * g.homeOf(h)] == EMPTY;
    }
  }

  /** Both buckets are full of live inherited debts, which never move. */
  predicate Stuck(g: Geometry, t: Table, h: nat, now: nat)
    requires Sound(g) && Allocated(g, t)
  {
    && Full(g, t, h, now)
    && MovableIn(t, g.homeOf(h), now).None? && MovableIn(Turned(t), g.alt(g.homeOf(h), g.tagOf(h)), now).None?
  }

  lemma OwnKeeps(g: Geometry, t: Table, h: nat, debt: Record, now: nat, forget: bool, m: map<Id, Record>)
    requires Sound(g) && Allocated(g, t) && Holds(g, t, now, m)
    requires Live(debt, now) && debt.tag == g.tagOf(h) && Own(g, t, h, now).Some?
    ensures var p := Own(g, t, h, now).value;
            var o := Outcome(Put(t, p, Merged(t.records[p], debt)), Some(Exact), None);
            Keeps(g, t, o, now, forget, Wanted(m, IdOf(g, h), debt))
  {
    hide Holds, Own;
    OwnIff(g, t, now, m, h);
    var p := Own(g, t, h, now).value;
    PutAgain(g, t, now, m, p, Merged(t.records[p], debt));
  }

  lemma FreeKeeps(g: Geometry, t: Table, b: nat, debt: Record, now: nat, forget: bool, m: map<Id, Record>)
    requires Sound(g) && Allocated(g, t) && Holds(g, t, now, m) && b < g.buckets
    requires Live(debt, now) && IdAt(g, b, debt.tag) !in m && FreeIn(t, b, now).Some?
    ensures var o := Outcome(Put(t, 4 * b + FreeIn(t, b, now).value, debt), Some(Exact), None);
            Keeps(g, t, o, now, forget, m[IdAt(g, b, debt.tag) := debt])
  {
    hide Holds, FreeIn;
    PutInFree(g, t, now, m, 4 * b + FreeIn(t, b, now).value, debt);
  }

  lemma SameMovable(t: Table, u: Table, b: nat, now: nat)
    requires t.records == u.records && t.turn == u.turn && 4 * b + 4 <= |t.records|
    ensures MovableIn(t, b, now) == MovableIn(u, b, now)
  {
  }

  lemma FullKeeps(g: Geometry, t: Table, h: nat, spent: nat, until: nat, now: nat, forget: bool, inherited: bool,
                  m: map<Id, Record>)
    requires Sound(g) && Allocated(g, t) && Holds(g, t, now, m) && now < until && now < RECORD_UNTIL_MAX
    requires Own(g, t, h, now).None? && Full(g, t, h, now) && IdOf(g, h) !in m
    ensures var o := RecordDebt(g, t, h, spent, until, now, forget, inherited);
            var debt := DebtOf(g, h, spent, until, inherited);
            if inherited && Stuck(g, t, h, now) then
              o.result.None? && o.spilled.None? && o.table.records == t.records && o.table.cells == t.cells
            else Keeps(g, t, o, now, forget, m[IdOf(g, h) := debt])
  {
    hide Holds, MergeCell, Own, FreeIn, MovableIn, Displace, Spill, Sound;
    var other := Other(g, h);
    var debt, home := DebtOf(g, h, spent, until, inherited), g.homeOf(h);
    if t.backoff == 0 {
      DisplaceKeeps(g, t, debt, home, now, forget, MAX_KICKS, m);
    } else {
      var t1 := t.(backoff := t.backoff - 1);
      HoldsSame(g, t, t1, now, m);
      SameMovable(t, t1, home, now);
      SameMovable(Turned(t), Turned(t1), other, now);
      if inherited {
        DisplaceKeeps(g, t1, debt, home, now, forget, 1, m);
      } else {
        HomelessAtOnce(g, t1, debt, home, now, m);
        SpillKeeps(g, t, t1, Homeless(debt, home), now, forget, m[IdOf(g, h) := debt]);
      }
    }
  }

  lemma AllocateTwice(g: Geometry, t: Table)
    ensures Sound(g) ==> Allocate(g, Allocate(g, t)) == Allocate(g, t)
  {
  }

  lemma AllocateHolds(g: Geometry, t: Table, now: nat, m: map<Id, Record>)
    requires Sound(g) && WF(g, t) && Holds(g, t, now, m)
    ensures Allocated(g, Allocate(g, t)) && Holds(g, Allocate(g, t), now, m)
  {
    if t.records == [] {
      var at: Places :| Located(g, t, now, at) && Held(t, at) == m;
      assert m == map[];
      HoldsNothing(g, t, now);
    }
  }

  /** `record` keeps every debt: the exact table holds what it held and the new
      debt, merged with the key's own if there was one, but for at most one
      debt, not inherited, which is then in the sketch. It turns a debt away only
      if the debt is inherited and both of its buckets are full of such debts,
      and then changes neither part of the table. */
  lemma RecordKeeps(g: Geometry, t0: Table, h: nat, spent: nat, until: nat, now: nat, forget: bool, inherited: bool,
                    m: map<Id, Record>)
    requires Sound(g) && WF(g, t0) && Holds(g, t0, now, m) && now < until && now < RECORD_UNTIL_MAX
    ensures var o := RecordDebt(g, t0, h, spent, until, now, forget, inherited);
            var t := Allocate(g, t0);
            if o.result.None? then
              && inherited && IdOf(g, h) !in m && Stuck(g, t, h, now)
              && o.spilled.None? && o.table.records == t.records && o.table.cells == t.cells
            else
              && !(inherited && IdOf(g, h) !in m && Stuck(g, t, h, now))
              && Keeps(g, t, o, now, forget, Wanted(m, IdOf(g, h), DebtOf(g, h, spent, until, inherited)))
  {
    hide Holds, MergeCell, Own, FreeIn, MovableIn, Displace, Spill, Sound;
    var t := Allocate(g, t0);
    AllocateHolds(g, t0, now, m);
    var other := Other(g, h);
    var debt, home := DebtOf(g, h, spent, until, inherited), g.homeOf(h);
    OwnIff(g, t, now, m, h);
    if Own(g, t, h, now).Some? {
      OwnKeeps(g, t, h, debt, now, forget, m);
    } else if FreeIn(t, home, now).Some? {
      FreeKeeps(g, t, home, debt, now, forget, m);
    } else if FreeIn(t, other, now).Some? {
      FreeKeeps(g, t, other, debt, now, forget, m);
    } else {
      FullKeeps(g, t, h, spent, until, now, forget, inherited, m);
      AllocateTwice(g, t0);
    }
  }

  // ---------------------------------------------------------- an exact place

  lemma PlaceIs(start: nat, i: nat)
    requires i < 4
    ensures Place(start, i) == if start % 4 + i < 4 then start % 4 + i else start % 4 + i - 4
  {
  }

  /** However the turn stands, each of the four places is looked at. */
  lemma PlaceIsLookedAt(start: nat, i: nat)
    requires i < 4
    ensures i == Place(start, 0) || i == Place(start, 1) || i == Place(start, 2) || i == Place(start, 3)
  {
    PlaceIs(start, 0);
    PlaceIs(start, 1);
    PlaceIs(start, 2);
    PlaceIs(start, 3);
    hide Place;
  }

  lemma MovableInIff(t: Table, b: nat, now: nat)
    requires 4 * b + 4 <= |t.records|
    ensures MovableIn(t, b, now).Some? <==>
              || Movable(t.records[4 * b], now) || Movable(t.records[4 * b + 1], now)
              || Movable(t.records[4 * b + 2], now) || Movable(t.records[4 * b + 3], now)
  {
    hide Place, Movable;
    PlaceIsLookedAt(t.turn, 0);
    PlaceIsLookedAt(t.turn, 1);
    PlaceIsLookedAt(t.turn, 2);
    PlaceIsLookedAt(t.turn, 3);
  }

  lemma RoomInIff(t: Table, u: Table, b: nat, now: nat)
    requires t.records == u.records && 4 * b + 4 <= |t.records|
    ensures RoomIn(t, b, now) <==> FreeIn(t, b, now).Some? || MovableIn(u, b, now).Some?
  {
    hide MovableIn;
    MovableInIff(u, b, now);
  }

  lemma StuckIff(g: Geometry, t: Table, h: nat, now: nat)
    requires Sound(g) && Allocated(g, t)
    ensures Stuck(g, t, h, now) <==>
              !RoomIn(t, g.homeOf(h), now) && !RoomIn(t, g.alt(g.homeOf(h), g.tagOf(h)), now)
  {
    hide FreeIn, MovableIn, RoomIn;
    RoomInIff(t, t, g.homeOf(h), now);
    RoomInIff(t, Turned(t), g.alt(g.homeOf(h), g.tagOf(h)), now);
  }

  lemma DisplaceFailsIff(g: Geometry, t: Table, debt: Record, home: nat, now: nat, forget: bool, kicks: nat)
    requires Sound(g) && Allocated(g, t) && home < g.buckets && kicks > 0
    ensures Displace(g, t, debt, home, now, forget, kicks).result.None? <==>
              debt.inherited && MovableIn(t, home, now).None? && MovableIn(Turned(t), g.alt(home, debt.tag), now).None?
  {
    hide MovableIn, Walk, Overflow;
  }

  /** An empty table has room everywhere. */
  lemma FreshHasRoom(g: Geometry, t: Table, h: nat, now: nat)
    requires Sound(g) && WF(g, t) && t.records == []
    ensures !Stuck(g, Allocate(g, t), h, now)
  {
    assert !Live(EMPTY, now);
  }

  /** `has_exact_room` holds exactly when recording an inherited debt succeeds. */
  lemma RoomIff(g: Geometry, t0: Table, h: nat, spent: nat, until: nat, now: nat, forget: bool)
    requires Sound(g) && WF(g, t0)
    ensures HasExactRoom(g, t0, h, now) <==>
              RecordDebt(g, t0, h, spent, until, now, forget, true).result.Some?
  {
    hide Own, FreeIn, MovableIn, RoomIn, Displace;
    var t := Allocate(g, t0);
    var debt, home := DebtOf(g, h, spent, until, true), g.homeOf(h);
    var t1 := if t.backoff == 0 then t else t.(backoff := t.backoff - 1);
    StuckIff(g, t, h, now);
    SameMovable(t, t1, home, now);
    SameMovable(Turned(t), Turned(t1), g.alt(home, debt.tag), now);
    DisplaceFailsIff(g, t1, debt, home, now, forget, if t.backoff == 0 then MAX_KICKS else 1);
    if t0.records == [] { FreshHasRoom(g, t0, h, now); }
  }

  /** A debt that is not inherited is always recorded. */
  lemma PlainAlwaysRecorded(g: Geometry, t0: Table, h: nat, spent: nat, until: nat, now: nat, forget: bool)
    requires Sound(g) && WF(g, t0)
    ensures RecordDebt(g, t0, h, spent, until, now, forget, false).result.Some?
  {
    hide Own, FreeIn, MovableIn, Displace;
    var t := Allocate(g, t0);
    DisplaceFailsIff(g, t, DebtOf(g, h, spent, until, false), g.homeOf(h), now, forget, MAX_KICKS);
  }
}
