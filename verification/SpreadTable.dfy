/** A debt charged from the sketch finds its way back into it, as far as the
    recovery table is concerned (src/store.rs:662-805): the tables between the
    checks of the run of `SpreadRun`, in a table of two buckets and eight cells,
    which is what the store gives a shard with room for one key. */
module SpreadTable {
  import opened Units
  import opened Probe
  import opened RecoveryTable

  /** Nine keys that fill the table, four that are charged from the sketch, five
      that fill it again, and two more. */
  const FILL: seq<nat> := [5, 4, 7, 11, 13, 21, 26, 27, 28]
  const CHARGED: seq<nat> := [14, 20, 42, 70]
  const REFILL: seq<nat> := [2, 3, 8, 9, 15]
  const VICTIM: nat := 70
  const PUSHER: nat := 6
  const LAST_KEY: nat := 10

  /** Where the keys' debts live. */
  ghost predicate Cast(g: Geometry) {
    && Sound(g) && g.buckets == 2 && g.cells == 8
    && (forall k: nat :: 0 < k < 100 ==> g.tagOf(k) == k)
    && (forall i :: 0 <= i < 9 ==> g.homeOf(FILL[i]) == 0)
    && (forall i :: 0 <= i < 4 ==>
          g.homeOf(CHARGED[i]) == 0 && g.cellA(CHARGED[i], 0) == 6 && g.cellB(CHARGED[i], 0) == 7)
    && (forall i :: 0 <= i < 5 ==> g.homeOf(REFILL[i]) == 1)
    && g.cellA(5, 0) == 6 && g.cellB(5, 0) == 7
    && g.cellA(15, 0) == 3 && g.cellB(15, 0) == 4
    && g.homeOf(6) == 0 && g.cellA(6, 0) == 3 && g.cellB(6, 0) == 4
  }

  /** A debt of ten units. */
  function Ten(key: nat, until: nat, inherited: bool): Record { Record(key, 10, until, inherited) }

  // ------------------------------------------------------------- two buckets

  lemma Two(g: Geometry, b: nat, tag: nat)
    requires Sound(g) && g.buckets == 2 && b < 2
    ensures g.alt(b, tag) == 1 - b && IdAt(g, b, tag) == Id(tag, 0)
  {
  }

  lemma OwnNone(g: Geometry, t: Table, h: nat, now: nat)
    requires Sound(g) && Allocated(g, t)
    requires forall p :: 0 <= p < |t.records| ==> t.records[p].tag != g.tagOf(h) || !Live(t.records[p], now)
    ensures Own(g, t, h, now).None?
  {
  }

  lemma OwnAt(g: Geometry, t: Table, h: nat, now: nat, r: nat)
    requires Sound(g) && Allocated(g, t) && r < 4 && g.homeOf(h) == 0
    requires t.records[r].tag == g.tagOf(h) && Live(t.records[r], now)
    requires forall p :: 0 <= p < r ==> t.records[p].tag != g.tagOf(h)
    ensures Own(g, t, h, now) == Some(r)
  {
  }

  predicate FullAt(t: Table, b: nat, now: nat)
    requires 4 * b + 4 <= |t.records|
  {
    forall p :: 4 * b <= p < 4 * b + 4 ==> Live(t.records[p], now)
  }

  lemma FreeNone(t: Table, b: nat, now: nat)
    requires 4 * b + 4 <= |t.records| && FullAt(t, b, now)
    ensures FreeIn(t, b, now).None?
  {
  }

  lemma FreeAt(t: Table, b: nat, r: nat, now: nat)
    requires 4 * b + 4 <= |t.records| && r < 4 && !Live(t.records[4 * b + r], now)
    requires forall p :: 4 * b <= p < 4 * b + r ==> Live(t.records[p], now)
    ensures FreeIn(t, b, now) == Some(r)
  {
  }

  lemma MovableAt(t: Table, b: nat, now: nat)
    requires 4 * b + 4 <= |t.records| && Movable(t.records[4 * b + t.turn % 4], now)
    ensures MovableIn(t, b, now) == Some(t.turn % 4)
  {
  }

  // --------------------------------------------------------------- recording

  /** With a free record in the key's home, the debt goes there. */
  lemma RecordsFree(g: Geometry, t: Table, h: nat, until: nat, now: nat, inherited: bool, r: nat)
    requires Cast(g) && Allocated(g, t) && 0 < h < 100 && until <= UNTIL_MAX && r < 4
    requires Own(g, t, h, now).None? && FreeIn(t, g.homeOf(h), now) == Some(r)
    ensures RecordDebt(g, t, h, 10, until, now, false, inherited) ==
              Outcome(Put(t, 4 * g.homeOf(h) + r, Ten(h, until, inherited)), Some(Exact), None)
  {
    hide Own, FreeIn, Displace, Spill;
  }

  lemma RecordsFreeOther(g: Geometry, t: Table, h: nat, until: nat, now: nat, inherited: bool, r: nat)
    requires Cast(g) && Allocated(g, t) && 0 < h < 100 && until <= UNTIL_MAX && r < 4 && g.homeOf(h) == 0
    requires Own(g, t, h, now).None? && FreeIn(t, 0, now).None? && FreeIn(t, 1, now) == Some(r)
    ensures RecordDebt(g, t, h, 10, until, now, false, inherited) ==
              Outcome(Put(t, 4 + r, Ten(h, until, inherited)), Some(Exact), None)
  {
    Two(g, 0, h);
    hide Own, FreeIn, Displace, Spill;
  }

  /** Both buckets are full of others' live debts. */
  ghost predicate Crowded(g: Geometry, t: Table, h: nat, now: nat)
    requires Sound(g)
  {
    g.buckets == 2 && Allocated(g, t) && FullAt(t, 0, now) && FullAt(t, 1, now)
    && forall p :: 0 <= p < 8 ==> t.records[p].tag != g.tagOf(h)
  }

  lemma CrowdedFacts(g: Geometry, t: Table, h: nat, now: nat)
    requires Sound(g) && Crowded(g, t, h, now)
    ensures Own(g, t, h, now).None? && FreeIn(t, 0, now).None? && FreeIn(t, 1, now).None?
    ensures g.homeOf(h) < 2 && g.alt(g.homeOf(h), g.tagOf(h)) == 1 - g.homeOf(h)
  {
    OwnNone(g, t, h, now);
    FreeNone(t, 0, now);
    FreeNone(t, 1, now);
  }

  /** Soon after a walk, a debt that is not inherited goes to the sketch at once. */
  lemma RecordsSpill(g: Geometry, t: Table, h: nat, until: nat, now: nat)
    requires Cast(g) && 0 < h < 100 && until <= UNTIL_MAX && Crowded(g, t, h, now) && t.backoff > 0
    ensures var t1 := t.(backoff := t.backoff - 1);
            var debt := Ten(h, until, false);
            RecordDebt(g, t, h, 10, until, now, false, false) ==
              Outcome(Overflow(g, t1, debt, g.homeOf(h), now), Some(Overflowed), Some(Homeless(debt, g.homeOf(h))))
  {
    CrowdedFacts(g, t, h, now);
    hide Own, FreeIn, Displace, Overflow;
  }

  lemma DisplacesOne(g: Geometry, t: Table, p: nat, debt: Record, now: nat)
    requires Sound(g) && g.buckets == 2 && Allocated(g, t) && p < 4 && FullAt(t, 1, now)
    ensures Walk(g, Turned(t), 0, p, debt, now, 1) == Walked(Put(Turned(t), p, debt), Some(Homeless(t.records[p], 1)))
  {
    Two(g, 0, t.records[p].tag);
    FreeNone(Put(Turned(t), p, debt), 1, now);
    hide FreeIn, MovableIn;
  }

  /** An inherited one takes the place of the record whose turn it is in its home,
      and that one goes. */
  lemma RecordsDisplace(g: Geometry, t: Table, h: nat, until: nat, now: nat)
    requires Cast(g) && 0 < h < 100 && until <= UNTIL_MAX && Crowded(g, t, h, now) && t.backoff > 0 && g.homeOf(h) == 0
    requires Movable(t.records[t.turn % 4], now) && now < until
    ensures var p := t.turn % 4;
            var victim := t.records[p];
            var t1 := Put(Turned(t), p, Ten(h, until, true)).(backoff := WALK_BACKOFF);
            RecordDebt(g, t, h, 10, until, now, false, true) ==
              Outcome(Overflow(g, t1, victim, 1, now), Some(Overflowed), Some(Homeless(victim, 1)))
  {
    CrowdedFacts(g, t, h, now);
    var t0 := t.(backoff := t.backoff - 1);
    var p, debt := t.turn % 4, Ten(h, until, true);
    assert Movable(t0.records[4 * 0 + t0.turn % 4], now);
    MovableAt(t0, 0, now);
    Two(g, 0, h);
    DisplacesOne(g, t0, p, debt, now);
    hide Own, FreeIn, MovableIn, Overflow, Walk, Spill, Cast;
  }

  // ------------------------------------------------------------------ taking

  /** The key is charged nothing. */
  lemma TakesNothing(g: Geometry, t: Table, h: nat, now: nat)
    requires Sound(g) && Allocated(g, t) && Own(g, t, h, now).None?
    requires forall c :: 0 <= c < |t.cells| ==> CellUntil(t.cells[c]) <= now
    ensures Take(g, t, h, now) == (None, t)
  {
    hide Own;
  }

  /** The key is charged from its two cells. */
  lemma TakesShared(g: Geometry, t: Table, h: nat, now: nat, cell: nat)
    requires Sound(g) && Allocated(g, t) && Own(g, t, h, now).None? && CellUntil(cell) > now
    requires var id := IdOf(g, h); t.cells[g.cellA(id.tag, id.low)] == cell == t.cells[g.cellB(id.tag, id.low)]
    ensures Take(g, t, h, now) == (Some(Charge(CellSpent(cell), CellUntil(cell), true)), t)
  {
    hide Own, CellUntil, CellSpent, IdOf;
  }

  /** The key is charged its own record, whether or not that is inherited. */
  lemma TakesOwn(g: Geometry, t: Table, h: nat, now: nat, p: nat)
    requires Sound(g) && Allocated(g, t) && Own(g, t, h, now) == Some(p)
    requires var id := IdOf(g, h); CellUntil(t.cells[g.cellA(id.tag, id.low)]) <= now
    ensures Take(g, t, h, now) == (Some(Charge(t.records[p].spent, t.records[p].until, false)), Put(t, p, EMPTY))
  {
    hide Own, CellUntil, CellSpent, IdOf;
  }

  // ----------------------------------------------------------------- filling

  /** The first `j` debts, of the first second. */
  ghost predicate Filled(g: Geometry, t: Table, j: nat) {
    && Allocated(g, t) && |t.records| == 8 && |t.cells| == 8 && j <= 8
    && (forall i :: 0 <= i < j ==> t.records[i] == Ten(FILL[i], 1000, false))
    && (forall i :: j <= i < 8 ==> t.records[i] == EMPTY)
    && (forall c :: 0 <= c < 8 ==> t.cells[c] == 0)
    && t.turn == 0 && t.backoff == 0
  }

  lemma Differ(i: nat, j: nat)
    requires i < j < 9
    ensures FILL[i] != FILL[j] && 0 < FILL[i] < 100 && 0 < FILL[j] < 100
  {
  }

  lemma AllocatesFirst(g: Geometry, h: nat, until: nat, now: nat)
    requires Sound(g)
    ensures RecordDebt(g, NEW, h, 10, until, now, false, false) ==
              RecordDebt(g, Allocate(g, NEW), h, 10, until, now, false, false)
  {
    hide Own, FreeIn, Displace, Spill;
  }

  lemma FillsEmpty(g: Geometry)
    requires Cast(g)
    ensures Filled(g, Allocate(g, NEW), 0)
  {
  }

  lemma Fills(g: Geometry, t: Table, j: nat)
    requires Cast(g) && j < 8 && Filled(g, t, j)
    ensures var o := RecordDebt(g, t, FILL[j], 10, 1000, 0, false, false);
            Filled(g, o.table, j + 1) && o.spilled.None?
  {
    forall i | 0 <= i < j ensures FILL[i] != FILL[j] && FILL[i] != 0 { Differ(i, j); }
    Differ(j, j + 1);
    assert g.homeOf(FILL[j]) == 0 && g.tagOf(FILL[j]) == FILL[j];
    hide Own, FreeIn, RecordDebt, FILL;
    OwnNone(g, t, FILL[j], 0);
    if j < 4 {
      FreeAt(t, 0, j, 0);
      RecordsFree(g, t, FILL[j], 1000, 0, false, j);
    } else {
      FreeNone(t, 0, 0);
      FreeAt(t, 1, j - 4, 0);
      RecordsFreeOther(g, t, FILL[j], 1000, 0, false, j - 4);
    }
  }

  /** The next of them is charged nothing. */
  lemma FillTakes(g: Geometry, t: Table, j: nat)
    requires Cast(g) && 0 < j <= 8 && Filled(g, t, j)
    ensures Take(g, t, FILL[j], 0) == (None, t)
  {
    forall i | 0 <= i < j ensures FILL[i] != FILL[j] { Differ(i, j); }
    Differ(0, j);
    OwnNone(g, t, FILL[j], 0);
    TakesNothing(g, t, FILL[j], 0);
  }

  // ---------------------------------------------------------------- the walk

  /** A debt of the first second, at its end. */
  predicate Old(r: Record) { r == Ten(r.tag, 1000, false) && r.tag in FILL }

  lemma OldTags(r: Record)
    requires Old(r)
    ensures r.tag != 0 && r.tag !in CHARGED && r.tag !in REFILL && r.tag != PUSHER && r.tag != LAST_KEY
  {
  }

  ghost predicate AllOld(t: Table) { |t.records| == 8 && forall p :: 0 <= p < 8 ==> Old(t.records[p]) }

  lemma OldIsMovable(t: Table)
    requires AllOld(t)
    ensures forall p :: 0 <= p < 8 ==> Movable(t.records[p], 900)
    ensures FullAt(t, 0, 900) && FullAt(t, 1, 900)
  {
    forall p | 0 <= p < 8 ensures Movable(t.records[p], 900) { OldTags(t.records[p]); }
  }

  lemma MoveIs(g: Geometry, t: Table, b: nat, r: nat, homeless: Record, now: nat, kicks: nat, q: nat)
    requires Sound(g) && Allocated(g, t) && b < g.buckets && r < 4 && kicks > 0 && q < 4
    requires var t1 := Put(t, 4 * b + r, homeless);
             var b1 := g.alt(b, t.records[4 * b + r].tag);
             FreeIn(t1, b1, now).None? && MovableIn(t1, b1, now) == Some(q)
    ensures var t1 := Put(t, 4 * b + r, homeless);
            var victim := t.records[4 * b + r];
            var b1 := g.alt(b, victim.tag);
            Walk(g, t, b, r, homeless, now, kicks) ==
              if kicks == 1 then Walked(t1, Some(Homeless(victim, b1)))
              else Walk(g, Turned(t1), b1, q, victim, now, kicks - 1)
  {
    hide FreeIn, MovableIn, Put, Turned;
  }

  lemma MoveFinds(t: Table, b: nat, r: nat, homeless: Record)
    requires AllOld(t) && Old(homeless) && b < 2 && r < 4
    ensures var t1 := Put(t, 4 * b + r, homeless);
            AllOld(t1) && FreeIn(t1, 1 - b, 900).None? && MovableIn(t1, 1 - b, 900) == Some(t.turn % 4)
  {
    hide Old, FreeIn, MovableIn;
    var t1 := Put(t, 4 * b + r, homeless);
    OldIsMovable(t1);
    FreeNone(t1, 1 - b, 900);
    MovableAt(t1, 1 - b, 900);
  }

  /** One move of a walk through such a table. */
  lemma Moves(g: Geometry, t: Table, b: nat, r: nat, homeless: Record, kicks: nat)
    requires Sound(g) && g.buckets == 2 && Allocated(g, t) && AllOld(t) && Old(homeless) && t.turn < 100
    requires b < 2 && r < 4 && kicks > 0
    ensures var t1 := Put(t, 4 * b + r, homeless);
            var victim := t.records[4 * b + r];
            && AllOld(t1)
            && Walk(g, t, b, r, homeless, 900, kicks) ==
                 if kicks == 1 then Walked(t1, Some(Homeless(victim, 1 - b)))
                 else Walk(g, t1.(turn := t.turn + 1), 1 - b, t.turn % 4, victim, 900, kicks - 1)
  {
    hide FreeIn, MovableIn, AllOld, Sound, Walk, Old;
    MoveFinds(t, b, r, homeless);
    Two(g, b, t.records[4 * b + r].tag);
    MoveIs(g, t, b, r, homeless, 900, kicks, t.turn % 4);
  }

  /** Four moves: the debt, and the records at positions 0, 5, 2 and 7, each take
      the next one's place. */
  function Turnabout(t: Table, homeless: Record): Table
    requires |t.records| == 8
  {
    var r := t.records;
    t.(records := r[0 := homeless][5 := r[0]][2 := r[5]][7 := r[2]], turn := t.turn + 4)
  }

  lemma MovesRound(g: Geometry, t: Table, homeless: Record, kicks: nat)
    requires Sound(g) && g.buckets == 2 && Allocated(g, t) && AllOld(t) && Old(homeless)
    requires t.turn % 4 == 1 && t.turn < 90 && kicks > 4
    ensures AllOld(Turnabout(t, homeless))
    ensures Walk(g, t, 0, 0, homeless, 900, kicks) ==
              Walk(g, Turnabout(t, homeless), 0, 0, t.records[7], 900, kicks - 4)
  {
    hide Walk, Old, Sound;
    var r := t.records;
    Moves(g, t, 0, 0, homeless, kicks);
    var t1 := Put(t, 0, homeless).(turn := t.turn + 1);
    Moves(g, t1, 1, 1, r[0], kicks - 1);
    var t2 := Put(t1, 5, r[0]).(turn := t.turn + 2);
    Moves(g, t2, 0, 2, r[5], kicks - 2);
    var t3 := Put(t2, 2, r[5]).(turn := t.turn + 3);
    Moves(g, t3, 1, 3, r[2], kicks - 3);
    assert Put(t3, 7, r[2]).(turn := t.turn + 4) == Turnabout(t, homeless);
  }

  lemma MovesLast(g: Geometry, t: Table, homeless: Record, kicks: nat)
    requires Sound(g) && g.buckets == 2 && Allocated(g, t) && AllOld(t) && Old(homeless)
    requires t.turn % 4 == 1 && t.turn < 90 && kicks == 4
    ensures var w := Walk(g, t, 0, 0, homeless, 900, kicks);
            && AllOld(w.table) && w.left == Some(Homeless(t.records[7], 0))
            && w.table.turn == t.turn + 3
  {
    hide Walk, Old, Sound;
    var r := t.records;
    Moves(g, t, 0, 0, homeless, kicks);
    var t1 := Put(t, 0, homeless).(turn := t.turn + 1);
    Moves(g, t1, 1, 1, r[0], kicks - 1);
    var t2 := Put(t1, 5, r[0]).(turn := t.turn + 2);
    Moves(g, t2, 0, 2, r[5], kicks - 2);
    var t3 := Put(t2, 2, r[5]).(turn := t.turn + 3);
    Moves(g, t3, 1, 3, r[2], kicks - 3);
  }

  /** Sixteen moves leave the record the walk started from without a place. */
  lemma WalkFails(g: Geometry, t: Table, homeless: Record)
    requires Sound(g) && g.buckets == 2 && Allocated(g, t) && AllOld(t) && Old(homeless) && t.turn == 1
    ensures var w := Walk(g, t, 0, 0, homeless, 900, 16);
            AllOld(w.table) && w.left == Some(Homeless(t.records[0], 0)) && w.table.turn == 16
  {
    hide Walk, Old, Sound;
    MovesRound(g, t, homeless, 16);
    var t1 := Turnabout(t, homeless);
    MovesRound(g, t1, t.records[7], 12);
    var t2 := Turnabout(t1, t.records[7]);
    MovesRound(g, t2, t1.records[7], 8);
    var t3 := Turnabout(t2, t1.records[7]);
    MovesLast(g, t3, t2.records[7], 4);
  }

  // -------------------------------------------------------------- the sketch

  const OLD_CELL: nat := PackCell(1000, 10)

  /** A cell is blank or says ten units, until the end of the first second. */
  predicate OldCell(cell: nat) { cell == 0 || cell == OLD_CELL }

  ghost predicate OldCells(cells: seq<nat>) { |cells| == 8 && forall c :: 0 <= c < 8 ==> OldCell(cells[c]) }

  lemma OldCellReads(cell: nat)
    requires OldCell(cell)
    ensures CellUntil(cell) <= 1000 && MergeCell(cell, 1000, 10, 900) == OLD_CELL
    ensures CellUntil(OLD_CELL) == 1000 && CellSpent(OLD_CELL) == 10
  {
    CellRoundTrip(1000, 10);
  }

  lemma SpillsOld(g: Geometry, t: Table, r: Record, b: nat)
    requires Sound(g) && g.buckets == 2 && g.cells == 8 && Allocated(g, t) && Old(r) && b < 2 && OldCells(t.cells)
    ensures var u := Overflow(g, t, r, b, 900);
            && OldCells(u.cells) && u.records == t.records && u.turn == t.turn && u.backoff == t.backoff
            && u.cells[g.cellA(r.tag, 0)] == OLD_CELL == u.cells[g.cellB(r.tag, 0)]
            && forall c :: 0 <= c < 8 && t.cells[c] == OLD_CELL ==> u.cells[c] == OLD_CELL
  {
    Two(g, b, r.tag);
    var i, j := g.cellA(r.tag, 0), g.cellB(r.tag, 0);
    OldCellReads(t.cells[i]);
    OldCellReads(t.cells[j]);
    hide MergeCell, OLD_CELL;
  }

  // ----------------------------------------------------------------- charged

  /** The first `n` keys charged from the sketch have inherited records in the
      first bucket; everything else is old. */
  ghost predicate Inherited(g: Geometry, t: Table, n: nat) {
    && Allocated(g, t) && |t.records| == 8 && n <= 4
    && (forall i :: 0 <= i < n ==> t.records[i] == Ten(CHARGED[i], 1900, true))
    && (forall i :: n <= i < 8 ==> Old(t.records[i]))
    && t.turn == 16 + n && t.backoff == WALK_BACKOFF
    && OldCells(t.cells) && t.cells[6] == OLD_CELL == t.cells[7]
  }

  lemma OverfillIs(g: Geometry, t: Table, debt: Record, w: Walked)
    requires Cast(g) && Allocated(g, t) && debt == Ten(28, 1000, false) && t.backoff == 0 && t.records != []
    requires Own(g, t, 28, 900).None? && FreeIn(t, 0, 900).None? && FreeIn(t, 1, 900).None?
    requires MovableIn(t, 0, 900) == Some(0) && g.alt(0, 28) == 1 && g.homeOf(28) == 0
    requires w == Walk(g, Turned(t), 0, 0, debt, 900, 16) && w.left.Some?
    ensures RecordDebt(g, t, 28, 10, 1000, 900, false, false).table ==
              Overflow(g, w.table.(backoff := WALK_BACKOFF), w.left.value.record, w.left.value.bucket, 900)
  {
    assert g.tagOf(28) == 28;
    hide Cast, Own, FreeIn, MovableIn, Walk, Overflow, Sound;
  }

  lemma FilledIsOld(g: Geometry, t: Table)
    requires Cast(g) && Filled(g, t, 8)
    ensures AllOld(t) && OldCells(t.cells) && Crowded(g, t, 28, 900) && MovableIn(t, 0, 900) == Some(0)
    ensures t.records[0].tag == 5 && g.homeOf(28) == 0
  {
    forall p | 0 <= p < 8 ensures Old(t.records[p]) && t.records[p].tag != 28 { Differ(p, 8); }
    OldIsMovable(t);
    MovableAt(t, 0, 900);
    assert FILL[0] == 5 && FILL[8] == 28;
    hide MovableIn, Old, OLD_CELL;
  }

  lemma SpilledFirst(g: Geometry, t: Table, r: Record)
    requires Cast(g) && Allocated(g, t) && AllOld(t) && Old(r) && r.tag == 5 && OldCells(t.cells)
    requires t.turn == 16 && t.backoff == WALK_BACKOFF
    ensures Inherited(g, Overflow(g, t, r, 0, 900), 0)
  {
    SpillsOld(g, t, r, 0);
    hide Overflow, Old, OLD_CELL, OldCell;
  }

  /** The ninth debt starts the walk, and the first one goes to the sketch. */
  lemma Overfills(g: Geometry, t: Table)
    requires Cast(g) && Filled(g, t, 8)
    ensures Inherited(g, RecordDebt(g, t, 28, 10, 1000, 900, false, false).table, 0)
  {
    var debt := Ten(28, 1000, false);
    assert FILL[8] == 28 && Old(debt) && t.turn == 0 && t.backoff == 0;
    FilledIsOld(g, t);
    hide Own, FreeIn, MovableIn, Walk, Overflow, Old, OLD_CELL, Inherited, Filled, RecordDebt, FILL, Crowded, OldCells;
    CrowdedFacts(g, t, 28, 900);
    Two(g, 0, 28);
    var w := Walk(g, Turned(t), 0, 0, debt, 900, 16);
    WalkFails(g, Turned(t), debt);
    OverfillIs(g, t, debt, w);
    SpilledFirst(g, w.table.(backoff := WALK_BACKOFF), t.records[0]);
  }

  lemma ChargedTags(i: nat, j: nat)
    requires i < j < 4
    ensures CHARGED[i] != CHARGED[j] && 0 < CHARGED[i] < 100 && 0 < CHARGED[j] < 100
  {
  }

  lemma InheritedIsCrowded(g: Geometry, t: Table, n: nat)
    requires Cast(g) && Inherited(g, t, n) && n < 4
    ensures Crowded(g, t, CHARGED[n], 900) && Own(g, t, CHARGED[n], 900).None?
  {
    forall i | 0 <= i < n ensures CHARGED[i] != CHARGED[n] && CHARGED[i] != 0 { ChargedTags(i, n); }
    forall i | n <= i < 8 ensures t.records[i].tag != CHARGED[n] && t.records[i].tag != 0 { OldTags(t.records[i]); }
    hide OLD_CELL, OldCell;
    CrowdedFacts(g, t, CHARGED[n], 900);
  }

  /** The next key is charged from the sketch. */
  lemma InheritedTakes(g: Geometry, t: Table, n: nat)
    requires Cast(g) && Inherited(g, t, n) && n < 4
    ensures Take(g, t, CHARGED[n], 900) == (Some(Charge(10, 1000, true)), t)
  {
    InheritedIsCrowded(g, t, n);
    Two(g, 0, CHARGED[n]);
    OldCellReads(OLD_CELL);
    assert 0 < CHARGED[n] < 100;
    hide Own, OLD_CELL, Old, OldCell;
    TakesShared(g, t, CHARGED[n], 900, OLD_CELL);
  }

  lemma Replaced(g: Geometry, t: Table, t1: Table, n: nat, victim: Record)
    requires Cast(g) && Inherited(g, t, n) && n < 3 && victim == t.records[n]
    requires t1 == Put(Turned(t), n, Ten(CHARGED[n], 1900, true)).(backoff := WALK_BACKOFF)
    ensures Inherited(g, Overflow(g, t1, victim, 1, 900), n + 1)
  {
    hide Old, OLD_CELL, OldCell, Overflow, CHARGED;
    SpillsOld(g, t1, victim, 1);
  }

  /** And displaces an old record when it goes. */
  lemma Displaces(g: Geometry, t: Table, n: nat)
    requires Cast(g) && Inherited(g, t, n) && n < 3
    ensures Inherited(g, RecordDebt(g, t, CHARGED[n], 10, 1900, 900, false, true).table, n + 1)
  {
    InheritedIsCrowded(g, t, n);
    var victim := t.records[n];
    OldTags(victim);
    assert t.turn % 4 == n && 0 < CHARGED[n] < 100 && t.backoff > 0 && g.homeOf(CHARGED[n]) == 0;
    RecordsDisplace(g, t, CHARGED[n], 1900, 900);
    Replaced(g, t, Put(Turned(t), n, Ten(CHARGED[n], 1900, true)).(backoff := WALK_BACKOFF), n, victim);
    hide *;
  }

  lemma InheritedHasRoom(g: Geometry, t: Table, n: nat)
    requires Cast(g) && Inherited(g, t, n) && n < 3
    ensures HasExactRoom(g, t, CHARGED[n], 900)
  {
    hide Own, OLD_CELL, OldCell;
    assert !t.records[3].inherited;
    assert RoomIn(t, 0, 900);
  }

  // --------------------------------------------------------------- refilling

  /** All four have inherited records; `n` debts of the second flood follow, and
      the rest has expired. */
  ghost predicate Refilled(g: Geometry, t: Table, n: nat) {
    && Allocated(g, t) && |t.records| == 8 && n <= 4
    && (forall i :: 0 <= i < 4 ==> t.records[i] == Ten(CHARGED[i], 1900, true))
    && (forall p :: 4 <= p < 4 + n ==> t.records[p] == Ten(REFILL[p - 4], 2400, false))
    && (forall p :: 4 + n <= p < 8 ==> Old(t.records[p]))
    && t.turn == 19 && t.backoff == WALK_BACKOFF && OldCells(t.cells)
  }

  /** The fourth takes the place of an old record that has expired. */
  lemma FourthArrives(g: Geometry, t: Table)
    requires Cast(g) && Inherited(g, t, 3)
    ensures var o := RecordDebt(g, t, VICTIM, 10, 1900, 1400, false, true);
            Refilled(g, o.table, 0) && o.spilled.None? && HasExactRoom(g, t, VICTIM, 1400)
  {
    assert CHARGED[3] == VICTIM && g.homeOf(VICTIM) == 0 && g.tagOf(VICTIM) == VICTIM;
    forall i | 0 <= i < 3 ensures CHARGED[i] != VICTIM && CHARGED[i] != 0 { ChargedTags(i, 3); }
    assert !Live(t.records[3], 1400) && forall i :: 3 <= i < 8 ==> !Live(t.records[i], 1400);
    hide Own, FreeIn, RecordDebt, OLD_CELL, OldCell, Old, CHARGED;
    assert RoomIn(t, 0, 1400);
    OwnNone(g, t, VICTIM, 1400);
    FreeAt(t, 0, 3, 1400);
    RecordsFree(g, t, VICTIM, 1900, 1400, true, 3);
  }

  lemma RefillTags(i: nat, j: nat)
    requires i < j < 5
    ensures REFILL[i] != REFILL[j] && 0 < REFILL[i] < 100 && 0 < REFILL[j] < 100 && REFILL[j] !in CHARGED
            && REFILL[i] !in CHARGED
  {
  }

  lemma RefillOwnsNone(g: Geometry, t: Table, n: nat, now: nat)
    requires Cast(g) && Refilled(g, t, n) && n < 5
    ensures Own(g, t, REFILL[n], now).None? && g.tagOf(REFILL[n]) == REFILL[n] && 0 < REFILL[n] < 100
  {
    if n < 4 { RefillTags(n, 4); } else { RefillTags(0, n); }
    forall p | 0 <= p < 8 ensures t.records[p].tag != REFILL[n] {
      if p < 4 {
        assert t.records[p].tag == CHARGED[p] && CHARGED[p] in CHARGED;
      } else if p < 4 + n {
        RefillTags(p - 4, n);
      } else {
        OldTags(t.records[p]);
        assert REFILL[n] in REFILL;
      }
    }
    OwnNone(g, t, REFILL[n], now);
  }

  lemma Refills(g: Geometry, t: Table, n: nat)
    requires Cast(g) && Refilled(g, t, n) && n < 4
    ensures var o := RecordDebt(g, t, REFILL[n], 10, 2400, 1400, false, false);
            Refilled(g, o.table, n + 1) && o.spilled.None?
  {
    RefillOwnsNone(g, t, n, 1400);
    assert g.homeOf(REFILL[n]) == 1;
    forall p | 4 <= p < 4 + n ensures Live(t.records[p], 1400) { RefillTags(p - 4, n); }
    hide Own, FreeIn, RecordDebt, OLD_CELL, OldCell, CHARGED, REFILL;
    FreeAt(t, 1, n, 1400);
    RecordsFree(g, t, REFILL[n], 2400, 1400, false, n);
  }

  lemma OldCellsExpired(cells: seq<nat>, now: nat)
    requires OldCells(cells) && now >= 1000
    ensures forall c :: 0 <= c < |cells| ==> CellUntil(cells[c]) <= now
  {
    forall c | 0 <= c < 8 ensures CellUntil(cells[c]) <= now { OldCellReads(cells[c]); }
  }

  lemma RefillTakes(g: Geometry, t: Table, n: nat)
    requires Cast(g) && Refilled(g, t, n) && n < 5
    ensures Take(g, t, REFILL[n], 1400) == (None, t)
  {
    RefillOwnsNone(g, t, n, 1400);
    OldCellsExpired(t.cells, 1400);
    hide Own, OLD_CELL, OldCell, CHARGED, REFILL, Old;
    TakesNothing(g, t, REFILL[n], 1400);
  }

  // ---------------------------------------------------------- the way back in

  const NEW_CELL: nat := PackCell(2400, 10)

  /** The cells once the last of the second flood is in cells 3 and 4. */
  ghost predicate Sketched(cells: seq<nat>) {
    |cells| == 8 && cells[3] == NEW_CELL == cells[4]
    && forall c :: 0 <= c < 8 && c != 3 && c != 4 ==> OldCell(cells[c])
  }

  /** The full table, with the victim's place as given. */
  ghost predicate Full8(g: Geometry, t: Table, fourth: Record) {
    && Allocated(g, t) && |t.records| == 8 && t.turn == 19 && t.backoff > 0 && Sketched(t.cells)
    && (forall i :: 0 <= i < 3 ==> t.records[i] == Ten(CHARGED[i], 1900, true)) && t.records[3] == fourth
    && (forall p :: 4 <= p < 8 ==> t.records[p] == Ten(REFILL[p - 4], 2400, false))
  }

  lemma RefilledIsCrowded(g: Geometry, t: Table)
    requires Cast(g) && Refilled(g, t, 4)
    ensures Crowded(g, t, 15, 1500)
  {
    forall p | 0 <= p < 8 ensures Live(t.records[p], 1500) && t.records[p].tag != 15 {
      if p >= 4 { RefillTags(p - 4, 4); }
    }
  }

  lemma NewCellReads(cell: nat)
    requires OldCell(cell)
    ensures MergeCell(cell, 2400, 10, 1500) == NEW_CELL && CellUntil(NEW_CELL) == 2400 && CellSpent(NEW_CELL) == 10
  {
    OldCellReads(cell);
    CellRoundTrip(2400, 10);
  }

  /** The last of the second flood finds no place and goes to the sketch. */
  lemma Respills(g: Geometry, t: Table)
    requires Cast(g) && Refilled(g, t, 4)
    ensures var o := RecordDebt(g, t, 15, 10, 2400, 1500, false, false);
            Full8(g, o.table, Ten(VICTIM, 1900, true)) && o.spilled == Some(Homeless(Ten(15, 2400, false), 1))
  {
    RefilledIsCrowded(g, t);
    RecordsSpill(g, t, 15, 2400, 1500);
    assert CHARGED[3] == VICTIM && REFILL[4] == 15 && g.homeOf(15) == 1;
    Two(g, 1, 15);
    NewCellReads(t.cells[3]);
    NewCellReads(t.cells[4]);
    hide Own, RecordDebt, MergeCell, OLD_CELL, NEW_CELL, OldCell, Crowded, CHARGED, REFILL;
  }

  /** One of the victim's cells has expired. */
  ghost predicate Unsaidable(g: Geometry, t: Table)
    requires Sound(g) && Allocated(g, t)
  {
    Shared(g, t, IdOf(g, VICTIM), 1500).None?
  }

  /** The victim is charged its inherited record, as if it were its own. */
  lemma VictimTakes(g: Geometry, t: Table)
    requires Cast(g) && Full8(g, t, Ten(VICTIM, 1900, true))
    ensures Own(g, t, VICTIM, 1500) == Some(3) && Unsaidable(g, t)
    ensures var (charge, u) := Take(g, t, VICTIM, 1500);
            charge == Some(Charge(10, 1900, false)) && Full8(g, u, EMPTY)
  {
    assert CHARGED[3] == VICTIM && g.homeOf(VICTIM) == 0 && g.tagOf(VICTIM) == VICTIM;
    forall i | 0 <= i < 3 ensures CHARGED[i] != VICTIM { ChargedTags(i, 3); }
    Two(g, 0, VICTIM);
    OldCellReads(t.cells[6]);
    hide Own, OLD_CELL, NEW_CELL, OldCell, CHARGED, REFILL;
    OwnAt(g, t, VICTIM, 1500, 3);
    TakesOwn(g, t, VICTIM, 1500, 3);
  }

  lemma FloodTags(i: nat)
    requires i < 4
    ensures REFILL[i] != VICTIM && REFILL[i] != PUSHER && REFILL[i] != LAST_KEY && REFILL[i] != 0
    ensures i < 3 ==> CHARGED[i] != VICTIM && CHARGED[i] != PUSHER && CHARGED[i] != LAST_KEY && CHARGED[i] != 0
  {
  }

  /** Nobody else's tag is there. */
  lemma Full8Owns(g: Geometry, t: Table, fourth: Record, h: nat)
    requires Cast(g) && Full8(g, t, fourth) && h in {VICTIM, PUSHER, LAST_KEY} && fourth.tag != h
    ensures forall p :: 0 <= p < 8 ==> t.records[p].tag != h
    ensures Own(g, t, h, 1500).None?
    ensures (forall p :: 0 <= p < 8 && p != 3 ==> Live(t.records[p], 1500))
  {
    forall p | 0 <= p < 8 && p != 3 ensures t.records[p].tag != h && Live(t.records[p], 1500) {
      if p < 3 {
        FloodTags(p);
      } else {
        FloodTags(p - 4);
      }
    }
    OwnNone(g, t, h, 1500);
  }

  /** Evicted again, it is recorded as owing in its own right. */
  lemma VictimReturns(g: Geometry, t: Table)
    requires Cast(g) && Full8(g, t, EMPTY)
    ensures var o := RecordDebt(g, t, VICTIM, 10, 2500, 1500, false, false);
            Full8(g, o.table, Ten(VICTIM, 2500, false)) && o.spilled.None?
  {
    Full8Owns(g, t, EMPTY, VICTIM);
    assert CHARGED[3] == VICTIM && g.homeOf(VICTIM) == 0;
    hide Own, FreeIn, RecordDebt, OLD_CELL, NEW_CELL, OldCell, CHARGED, REFILL;
    FreeAt(t, 0, 3, 1500);
    RecordsFree(g, t, VICTIM, 2500, 1500, false, 3);
  }

  /** Another key is charged from the sketch... */
  lemma PusherTakes(g: Geometry, t: Table)
    requires Cast(g) && Full8(g, t, Ten(VICTIM, 2500, false))
    ensures Take(g, t, PUSHER, 1500) == (Some(Charge(10, 2400, true)), t)
  {
    Full8Owns(g, t, Ten(VICTIM, 2500, false), PUSHER);
    Two(g, 0, PUSHER);
    NewCellReads(0);
    hide Own, OLD_CELL, NEW_CELL, OldCell, CHARGED, REFILL;
    TakesShared(g, t, PUSHER, 1500, NEW_CELL);
  }

  const LATE_CELL: nat := PackCell(2500, 10)

  lemma LateCellReads(cell: nat)
    requires OldCell(cell)
    ensures MergeCell(cell, 2500, 10, 1500) == LATE_CELL && CellUntil(LATE_CELL) == 2500 && CellSpent(LATE_CELL) == 10
  {
    OldCellReads(cell);
    CellRoundTrip(2500, 10);
  }

  /** ...and pushes the victim's debt into the sketch: the only record of its home
      that may be moved. */
  lemma Pushes(g: Geometry, t: Table)
    requires Cast(g) && Full8(g, t, Ten(VICTIM, 2500, false))
    ensures HasExactRoom(g, t, PUSHER, 1500)
    ensures var o := RecordDebt(g, t, PUSHER, 10, 2500, 1500, false, true);
            && o.spilled == Some(Homeless(Ten(VICTIM, 2500, false), 1)) && Allocated(g, o.table)
            && o.table.cells == t.cells[6 := LATE_CELL][7 := LATE_CELL]
            && o.table.records == t.records[3 := Ten(PUSHER, 2500, true)]
  {
    Full8Owns(g, t, Ten(VICTIM, 2500, false), PUSHER);
    assert CHARGED[3] == VICTIM && g.cellA(VICTIM, 0) == 6 && g.cellB(VICTIM, 0) == 7 && t.turn % 4 == 3;
    Two(g, 1, VICTIM);
    LateCellReads(t.cells[6]);
    LateCellReads(t.cells[7]);
    hide Own, RecordDebt, MergeCell, OLD_CELL, NEW_CELL, LATE_CELL, OldCell, CHARGED, REFILL;
    assert RoomIn(t, 0, 1500);
    RecordsDisplace(g, t, PUSHER, 2500, 1500);
  }

  /** Whatever the last key is charged, it is ten units. */
  lemma LastTakes(g: Geometry, t: Table, u: Table)
    requires Cast(g) && Full8(g, t, Ten(VICTIM, 2500, false)) && Allocated(g, u)
    requires u.cells == t.cells[6 := LATE_CELL][7 := LATE_CELL] && u.records == t.records[3 := Ten(PUSHER, 2500, true)]
    ensures var charge := PeekCharge(g, u, LAST_KEY, 1500);
            charge.Some? ==> charge.value.spent == 10 && charge.value.until > 1500
    ensures Take(g, u, LAST_KEY, 1500).1 == u
  {
    Full8Owns(g, t, Ten(VICTIM, 2500, false), LAST_KEY);
    OwnNone(g, u, LAST_KEY, 1500);
    forall c | 0 <= c < 8 ensures CellUntil(u.cells[c]) > 1500 ==> CellSpent(u.cells[c]) == 10 {
      LateCellReads(0);
      NewCellReads(0);
      if OldCell(u.cells[c]) { OldCellReads(u.cells[c]); }
    }
    hide Own, OLD_CELL, NEW_CELL, LATE_CELL, OldCell, CellUntil, CellSpent, CHARGED, REFILL;
  }
}
