/** What the cuckoo table holds, as a map from identities to records, and how
    each write changes that map. */
module RecoveryFacts {
  import opened Units
  import opened Probe
  import opened RecoveryTable

  /** Where each identity's live record is. */
  type Places = map<Id, nat>

  ghost predicate InTable(t: Table, at: Places) {
    forall id :: id in at ==> at[id] < |t.records|
  }

  /** The live records and the identities of `at` are in bijection: at most one
      live record for each identity. */
  ghost predicate Located(g: Geometry, t: Table, now: nat, at: Places) {
    && InTable(t, at)
    && (forall p :: 0 <= p < |t.records| && Live(t.records[p], now) ==>
          IdHere(g, t, p) in at && at[IdHere(g, t, p)] == p)
    && (forall id :: id in at ==> Live(t.records[at[id]], now) && IdHere(g, t, at[id]) == id)
  }

  /** The table as a plain map. */
  ghost function Held(t: Table, at: Places): map<Id, Record>
    requires InTable(t, at)
  {
    map id | id in at :: t.records[at[id]]
  }

  // ----------------------------------------------------------------- lookup

  lemma PlaceIsLive(g: Geometry, t: Table, now: nat, at: Places, id: Id)
    requires Located(g, t, now, at) && id in at
    ensures at[id] < |t.records| && Live(t.records[at[id]], now)
    ensures IdHere(g, t, at[id]) == id && t.records[at[id]].tag == id.tag
  {
  }

  lemma OwnInFound(g: Geometry, t: Table, now: nat, at: Places, b: nat, tag: nat)
    requires Located(g, t, now, at) && 4 * b + 4 <= |t.records| && OwnIn(t, b, tag, now).Some?
    ensures IdAt(g, b, tag) in at && at[IdAt(g, b, tag)] == 4 * b + OwnIn(t, b, tag, now).value
  {
    hide OwnIn, IdAt;
    var p := 4 * b + OwnIn(t, b, tag, now).value;
    assert p / 4 == b;
    assert IdHere(g, t, p) == IdAt(g, b, tag);
  }

  lemma OwnInMissed(g: Geometry, t: Table, now: nat, at: Places, b: nat, tag: nat)
    requires Located(g, t, now, at) && 4 * b + 4 <= |t.records|
    requires IdAt(g, b, tag) in at && at[IdAt(g, b, tag)] / 4 == b
    ensures OwnIn(t, b, tag, now).Some?
  {
    PlaceIsLive(g, t, now, at, IdAt(g, b, tag));
    hide Located;
    var p := at[IdAt(g, b, tag)];
    assert Bears(t, p, tag, now);
    assert p == 4 * b + p % 4;
    assert p == 4 * b || p == 4 * b + 1 || p == 4 * b + 2 || p == 4 * b + 3;
  }

  /** The record of a key's identity is in one of the key's two buckets. */
  lemma PlaceOfHeld(g: Geometry, t: Table, now: nat, at: Places, h: nat)
    requires Sound(g) && Allocated(g, t) && Located(g, t, now, at) && IdOf(g, h) in at
    ensures var b := at[IdOf(g, h)] / 4; b == g.homeOf(h) || b == g.alt(g.homeOf(h), g.tagOf(h))
  {
    var p := at[IdOf(g, h)];
    assert IdHere(g, t, p) == IdOf(g, h);
    ProbedIff(g, h, p / 4, t.records[p].tag);
  }

  lemma Other(g: Geometry, h: nat) returns (other: nat)
    requires Sound(g)
    ensures other == g.alt(g.homeOf(h), g.tagOf(h))
    ensures g.homeOf(h) < g.buckets && other < g.buckets && g.tagOf(h) != 0
    ensures IdAt(g, g.homeOf(h), g.tagOf(h)) == IdOf(g, h) == IdAt(g, other, g.tagOf(h))
  {
    other := g.alt(g.homeOf(h), g.tagOf(h));
    MovingKeepsId(g, g.homeOf(h), g.tagOf(h));
  }

  lemma NothingHeld(g: Geometry, t: Table, now: nat, at: Places, h: nat)
    requires Located(g, t, now, at) && t.records == []
    ensures IdOf(g, h) !in at
  {
  }

  lemma OwnMissed(g: Geometry, t: Table, now: nat, at: Places, h: nat)
    requires Sound(g) && Allocated(g, t) && Located(g, t, now, at) && IdOf(g, h) in at
    ensures || OwnIn(t, g.homeOf(h), g.tagOf(h), now).Some?
            || OwnIn(t, g.alt(g.homeOf(h), g.tagOf(h)), g.tagOf(h), now).Some?
  {
    hide Located, OwnIn, Sound;
    var other := Other(g, h);
    PlaceOfHeld(g, t, now, at, h);
    if at[IdOf(g, h)] / 4 == g.homeOf(h) {
      OwnInMissed(g, t, now, at, g.homeOf(h), g.tagOf(h));
    } else {
      OwnInMissed(g, t, now, at, other, g.tagOf(h));
    }
  }

  lemma OwnFinds(g: Geometry, t: Table, now: nat, at: Places, h: nat)
    requires Sound(g) && WF(g, t) && Located(g, t, now, at)
    ensures Own(g, t, h, now) == if IdOf(g, h) in at then Some(at[IdOf(g, h)]) else None
  {
    hide Located, OwnIn, IdOf, Sound;
    if t.records == [] {
      NothingHeld(g, t, now, at, h);
    } else {
      var home, tag := g.homeOf(h), g.tagOf(h);
      var other := Other(g, h);
      if OwnIn(t, home, tag, now).Some? {
        OwnInFound(g, t, now, at, home, tag);
      } else if OwnIn(t, other, tag, now).Some? {
        OwnInFound(g, t, now, at, other, tag);
      } else if IdOf(g, h) in at {
        OwnMissed(g, t, now, at, h);
      }
    }
  }

  // ----------------------------------------------------------------- writes

  lemma PutFree(g: Geometry, t: Table, now: nat, at: Places, p: nat, r: Record)
    requires Located(g, t, now, at) && p < |t.records| && !Live(t.records[p], now)
    requires Live(r, now) && IdAt(g, p / 4, r.tag) !in at
    ensures var at' := at[IdAt(g, p / 4, r.tag) := p];
            && Located(g, Put(t, p, r), now, at')
            && Held(Put(t, p, r), at') == Held(t, at)[IdAt(g, p / 4, r.tag) := r]
  {
    hide IdAt, Live;
    var id := IdAt(g, p / 4, r.tag);
    var t', at' := Put(t, p, r), at[id := p];
    assert forall i :: i in at ==> at[i] != p;
    assert Located(g, t', now, at');
  }

  lemma PutEmpty(g: Geometry, t: Table, now: nat, at: Places, p: nat)
    requires Located(g, t, now, at) && p < |t.records| && Live(t.records[p], now)
    ensures var at' := at - {IdHere(g, t, p)};
            && Located(g, Put(t, p, EMPTY), now, at')
            && Held(Put(t, p, EMPTY), at') == Held(t, at) - {IdHere(g, t, p)}
  {
    hide IdAt;
    var v := IdHere(g, t, p);
    var t', at' := Put(t, p, EMPTY), at - {v};
    assert forall i :: i in at && i != v ==> at[i] != p;
    assert Located(g, t', now, at');
  }

  /** A live record gives up its place. */
  lemma PutOver(g: Geometry, t: Table, now: nat, at: Places, p: nat, r: Record)
    requires Located(g, t, now, at) && p < |t.records| && Live(t.records[p], now)
    requires Live(r, now) && IdAt(g, p / 4, r.tag) !in at
    ensures var at' := (at - {IdHere(g, t, p)})[IdAt(g, p / 4, r.tag) := p];
            && Located(g, Put(t, p, r), now, at')
            && Held(Put(t, p, r), at') == (Held(t, at) - {IdHere(g, t, p)})[IdAt(g, p / 4, r.tag) := r]
            && IdHere(g, t, p) in at && Held(t, at)[IdHere(g, t, p)] == t.records[p]
  {
    PutEmpty(g, t, now, at, p);
    PutFree(g, Put(t, p, EMPTY), now, at - {IdHere(g, t, p)}, p, r);
    assert Put(Put(t, p, EMPTY), p, r) == Put(t, p, r);
  }

  /** A record is rewritten in place under the same tag. */
  lemma PutSame(g: Geometry, t: Table, now: nat, at: Places, p: nat, r: Record)
    requires Located(g, t, now, at) && p < |t.records| && Live(t.records[p], now)
    requires Live(r, now) && r.tag == t.records[p].tag
    ensures Located(g, Put(t, p, r), now, at)
    ensures IdHere(g, t, p) in at && Held(Put(t, p, r), at) == Held(t, at)[IdHere(g, t, p) := r]
  {
    var t' := Put(t, p, r);
    var v := IdHere(g, t, p);
    assert forall i :: i in at && i != v ==> at[i] != p;
    assert Located(g, t', now, at);
  }

  /** Time passing only lets records expire. */
  lemma Expires(g: Geometry, t: Table, now: nat, later: nat, at: Places)
    requires Located(g, t, now, at) && now <= later
    ensures var at' := map id | id in at && Live(t.records[at[id]], later) :: at[id];
            && Located(g, t, later, at')
            && Held(t, at') == map id | id in Held(t, at) && Live(Held(t, at)[id], later) :: Held(t, at)[id]
  {
  }

  /** Only the exact table matters to what is held. */
  lemma SameRecords(g: Geometry, t: Table, u: Table, now: nat, at: Places)
    requires Located(g, t, now, at) && u.records == t.records
    ensures Located(g, u, now, at) && Held(u, at) == Held(t, at)
  {
    assert forall p :: 0 <= p < |t.records| ==> IdHere(g, u, p) == IdHere(g, t, p);
  }

  lemma FreshIsEmpty(g: Geometry, t: Table, now: nat)
    requires t.records == []
    ensures Located(g, t, now, map[]) && Located(g, Allocate(g, t), now, map[])
  {
  }

  // ------------------------------------------------- the table as a plain map

  /** The table holds exactly the live records of `m`, each once, in one of the
      two buckets of its identity. */
  ghost predicate Holds(g: Geometry, t: Table, now: nat, m: map<Id, Record>) {
    exists at: Places :: Located(g, t, now, at) && Held(t, at) == m
  }

  /** The two-bucket probe finds a key's record exactly when the table holds one
      for its identity. */
  lemma OwnIff(g: Geometry, t: Table, now: nat, m: map<Id, Record>, h: nat)
    requires Sound(g) && WF(g, t) && Holds(g, t, now, m)
    ensures var own := Own(g, t, h, now);
            && (own.Some? <==> IdOf(g, h) in m)
            && (own.Some? ==> m[IdOf(g, h)] == t.records[own.value] && IdHere(g, t, own.value) == IdOf(g, h))
  {
    var at: Places :| Located(g, t, now, at) && Held(t, at) == m;
    OwnFinds(g, t, now, at, h);
  }

  lemma PutInFree(g: Geometry, t: Table, now: nat, m: map<Id, Record>, p: nat, r: Record)
    requires Holds(g, t, now, m) && p < |t.records| && !Live(t.records[p], now)
    requires Live(r, now) && IdAt(g, p / 4, r.tag) !in m
    ensures Holds(g, Put(t, p, r), now, m[IdAt(g, p / 4, r.tag) := r])
  {
    var at: Places :| Located(g, t, now, at) && Held(t, at) == m;
    assert IdAt(g, p / 4, r.tag) !in at;
    PutFree(g, t, now, at, p, r);
  }

  lemma PutOverLive(g: Geometry, t: Table, now: nat, m: map<Id, Record>, p: nat, r: Record)
    requires Holds(g, t, now, m) && p < |t.records| && Live(t.records[p], now)
    requires Live(r, now) && IdAt(g, p / 4, r.tag) !in m
    ensures var v := IdHere(g, t, p);
            && v in m && m[v] == t.records[p]
            && Holds(g, Put(t, p, r), now, (m - {v})[IdAt(g, p / 4, r.tag) := r])
  {
    var at: Places :| Located(g, t, now, at) && Held(t, at) == m;
    assert IdAt(g, p / 4, r.tag) !in at;
    PutOver(g, t, now, at, p, r);
  }

  lemma PutAgain(g: Geometry, t: Table, now: nat, m: map<Id, Record>, p: nat, r: Record)
    requires Holds(g, t, now, m) && p < |t.records| && Live(t.records[p], now)
    requires Live(r, now) && r.tag == t.records[p].tag
    ensures Holds(g, Put(t, p, r), now, m[IdHere(g, t, p) := r])
  {
    var at: Places :| Located(g, t, now, at) && Held(t, at) == m;
    PutSame(g, t, now, at, p, r);
  }

  lemma Clears(g: Geometry, t: Table, now: nat, m: map<Id, Record>, p: nat)
    requires Holds(g, t, now, m) && p < |t.records| && Live(t.records[p], now)
    ensures Holds(g, Put(t, p, EMPTY), now, m - {IdHere(g, t, p)})
  {
    var at: Places :| Located(g, t, now, at) && Held(t, at) == m;
    PutEmpty(g, t, now, at, p);
  }

  /** `m` without what has expired by `now`. */
  ghost function Unexpired(m: map<Id, Record>, now: nat): map<Id, Record> {
    map id | id in m && Live(m[id], now) :: m[id]
  }

  /** Time passing only lets records expire. */
  lemma HoldsLater(g: Geometry, t: Table, now: nat, later: nat, m: map<Id, Record>)
    requires Holds(g, t, now, m) && now <= later
    ensures Holds(g, t, later, Unexpired(m, later))
  {
    var at: Places :| Located(g, t, now, at) && Held(t, at) == m;
    Expires(g, t, now, later, at);
  }

  lemma HoldsSame(g: Geometry, t: Table, u: Table, now: nat, m: map<Id, Record>)
    requires Holds(g, t, now, m) && u.records == t.records
    ensures Holds(g, u, now, m)
  {
    var at: Places :| Located(g, t, now, at) && Held(t, at) == m;
    SameRecords(g, t, u, now, at);
  }

  lemma HoldsNothing(g: Geometry, t: Table, now: nat)
    requires t.records == []
    ensures Holds(g, t, now, map[]) && Holds(g, Allocate(g, t), now, map[])
  {
    FreshIsEmpty(g, t, now);
    assert Held(t, map[]) == map[] && Held(Allocate(g, t), map[]) == map[];
  }

  // --------------------------------------------------------------- the walk

  /** The table holds everything it should, `m`, except at most one debt left
      homeless, which is live, not inherited, and lies in a bucket of its own. */
  ghost predicate HoldsAllBut(g: Geometry, t: Table, now: nat, m: map<Id, Record>, left: Option<Homeless>) {
    if left.None? then Holds(g, t, now, m)
    else
      var id := IdAt(g, left.value.bucket, left.value.record.tag);
      && id in m && m[id] == left.value.record && Movable(left.value.record, now)
      && left.value.bucket < g.buckets
      && Holds(g, t, now, m - {id})
  }

  lemma OutAndIn(m: map<Id, Record>, v: Id, id: Id, r: Record)
    requires v in m && id !in m
    ensures (m - {v})[id := r] == m[id := r] - {v}
    ensures (m - {v})[v := m[v]] == m
  {
  }

  /** One move of a walk: `homeless` takes the place of a record, which is then
      the only one missing, and is as much at home in its other bucket. */
  lemma Evicts(g: Geometry, t: Table, b: nat, r: nat, homeless: Record, now: nat, m: map<Id, Record>)
    requires Sound(g) && Allocated(g, t) && b < g.buckets && r < 4 && Holds(g, t, now, m)
    requires Movable(t.records[4 * b + r], now) && Live(homeless, now) && IdAt(g, b, homeless.tag) !in m
    ensures var victim := t.records[4 * b + r];
            HoldsAllBut(g, Put(t, 4 * b + r, homeless), now, m[IdAt(g, b, homeless.tag) := homeless],
                        Some(Homeless(victim, g.alt(b, victim.tag))))
  {
    hide Holds;
    var p := 4 * b + r;
    PutOverLive(g, t, now, m, p, homeless);
    MovingKeepsId(g, b, t.records[p].tag);
    OutAndIn(m, IdHere(g, t, p), IdAt(g, b, homeless.tag), homeless);
  }

  /** The missing record finds a free place. */
  lemma Arrives(g: Geometry, t: Table, b: nat, r: nat, victim: Record, now: nat, m: map<Id, Record>)
    requires Sound(g) && Allocated(g, t) && b < g.buckets && r < 4
    requires HoldsAllBut(g, t, now, m, Some(Homeless(victim, b))) && !Live(t.records[4 * b + r], now)
    ensures Holds(g, Put(t, 4 * b + r, victim), now, m)
  {
    hide Holds;
    var v := IdAt(g, b, victim.tag);
    PutInFree(g, t, now, m - {v}, 4 * b + r, victim);
    assert (m - {v})[v := victim] == m;
  }

  /** Whatever a walk displaces, the table ends up holding everything it held
      and the debt that started the walk, but for at most one. */
  lemma {:induction false} WalkKeeps(g: Geometry, t: Table, b: nat, r: nat, homeless: Record, now: nat, kicks: nat,
                                     m: map<Id, Record>)
    requires Sound(g) && Allocated(g, t) && b < g.buckets && r < 4 && kicks > 0 && Holds(g, t, now, m)
    requires Movable(t.records[4 * b + r], now) && Live(homeless, now) && IdAt(g, b, homeless.tag) !in m
    ensures var w := Walk(g, t, b, r, homeless, now, kicks);
            HoldsAllBut(g, w.table, now, m[IdAt(g, b, homeless.tag) := homeless], w.left)
    decreases kicks
  {
    hide Holds, FreeIn, MovableIn;
    var victim := t.records[4 * b + r];
    var m1 := m[IdAt(g, b, homeless.tag) := homeless];
    Evicts(g, t, b, r, homeless, now, m);
    var t1, b1 := Put(t, 4 * b + r, homeless), g.alt(b, victim.tag);
    var v := IdAt(g, b1, victim.tag);
    var free, next := FreeIn(t1, b1, now), MovableIn(t1, b1, now);
    if free.Some? {
      Arrives(g, t1, b1, free.value, victim, now, m1);
    } else {
      HoldsSame(g, t1, Turned(t1), now, m1 - {v});
      if kicks > 1 && next.Some? {
        WalkKeeps(g, Turned(t1), b1, next.value, victim, now, kicks - 1, m1 - {v});
        assert (m1 - {v})[v := victim] == m1;
      }
    }
  }
}
