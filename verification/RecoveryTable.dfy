/** The recovery table of one shard (src/store.rs:358-866) as a value: an exact
    cuckoo table of debts and, behind it, a shared overflow sketch.

    Buckets are four records each and lie side by side, so the table is one
    sequence and record `r` of bucket `b` is at position `4 * b + r`. */
module RecoveryTable {
  import opened Units
  import opened Probe

  const BUCKET_RECORDS: nat := 4
  const MAX_KICKS: nat := 16
  const WALK_BACKOFF: nat := 32

  /** The largest deadline a record holds: bit 63 is the inherited mark. */
  const RECORD_UNTIL_MAX: nat := 0x7FFF_FFFF_FFFF_FFFF

  const SPENT_UNIT: nat := 0x100_0000
  const SPENT_MAX: nat := SPENT_UNIT - 1
  const UNTIL_MAX: nat := 0xFF_FFFF_FFFF

  /** `until_ms` with its mark split off: the deadline in milliseconds, and
      whether any of the debt was charged from the sketch. Tag 0 is empty. */
  datatype Record = Record(tag: nat, spent: nat, until: nat, inherited: bool)

  const EMPTY := Record(0, 0, 0, false)

  datatype Table = Table(records: seq<Record>, cells: seq<nat>, turn: nat, backoff: nat)

  const NEW := Table([], [], 0, 0)

  /** A debt read back: its own record and the sketch's lower bound, combined. */
  datatype Charge = Charge(spent: nat, until: nat, shared: bool)

  datatype Recorded = Exact | Overflowed | Forgotten

  /** A debt left without a place, in the bucket where it was found homeless. */
  datatype Homeless = Homeless(record: Record, bucket: nat)

  datatype Walked = Walked(table: Table, left: Option<Homeless>)

  datatype Outcome = Outcome(table: Table, result: Option<Recorded>, spilled: Option<Homeless>)

  predicate Live(r: Record, now: nat) { r.tag != 0 && r.until > now }

  predicate Movable(r: Record, now: nat) { Live(r, now) && !r.inherited }

  // ------------------------------------------------------------------ cells

  function PackCell(until: nat, spent: nat): nat {
    Min(until, UNTIL_MAX) * SPENT_UNIT + Min(spent, SPENT_MAX)
  }

  function CellUntil(cell: nat): nat { cell / SPENT_UNIT }

  /** A saturated count reads back as everything. */
  function CellSpent(cell: nat): nat {
    if cell % SPENT_UNIT == SPENT_MAX then U32_MAX else cell % SPENT_UNIT
  }

  /** A cell never under-reports what was packed into it, up to the largest
      deadline it holds, and over-reports only a count that saturated it. */
  lemma CellRoundTrip(until: nat, spent: nat)
    requires spent <= U32_MAX
    ensures CellUntil(PackCell(until, spent)) == Min(until, UNTIL_MAX)
    ensures CellSpent(PackCell(until, spent)) == if spent < SPENT_MAX then spent else U32_MAX
    ensures PackCell(until, spent) <= U64_MAX
  {
  }

  function MergeCell(cell: nat, until: nat, spent: nat, now: nat): nat {
    if CellUntil(cell) > now then PackCell(Max(CellUntil(cell), until), Max(CellSpent(cell), spent))
    else PackCell(until, spent)
  }

  // ---------------------------------------------------------------- finding

  /** The first of four. */
  function FirstOf(a: bool, b: bool, c: bool, d: bool): Option<nat> {
    if a then Some(0) else if b then Some(1) else if c then Some(2) else if d then Some(3) else None
  }

  predicate WF(g: Geometry, t: Table) {
    (t.records == [] && t.cells == []) || (|t.records| == 4 * g.buckets && |t.cells| == g.cells)
  }

  predicate Allocated(g: Geometry, t: Table) {
    |t.records| == 4 * g.buckets && |t.cells| == g.cells
  }

  function IdHere(g: Geometry, t: Table, p: nat): Id
    requires p < |t.records|
  {
    IdAt(g, p / 4, t.records[p].tag)
  }

  predicate Bears(t: Table, p: nat, tag: nat, now: nat)
    requires p < |t.records|
  {
    t.records[p].tag == tag && Live(t.records[p], now)
  }

  function OwnIn(t: Table, b: nat, tag: nat, now: nat): (r: Option<nat>)
    requires 4 * b + 4 <= |t.records|
    ensures r.Some? ==> r.value < 4 && Bears(t, 4 * b + r.value, tag, now)
  {
    FirstOf(Bears(t, 4 * b, tag, now), Bears(t, 4 * b + 1, tag, now),
            Bears(t, 4 * b + 2, tag, now), Bears(t, 4 * b + 3, tag, now))
  }

  /** `own`: the position of the key's own live record. */
  function Own(g: Geometry, t: Table, h: nat, now: nat): (r: Option<nat>)
    requires Sound(g) && WF(g, t)
    ensures r.Some? ==> r.value < |t.records| && Bears(t, r.value, g.tagOf(h), now)
  {
    if t.records == [] then None
    else
      var home, tag := g.homeOf(h), g.tagOf(h);
      var first := OwnIn(t, home, tag, now);
      if first.Some? then Some(4 * home + first.value)
      else
        var other := g.alt(home, tag);
        var second := OwnIn(t, other, tag, now);
        if second.Some? then Some(4 * other + second.value) else None
  }

  /** `free_in`: a free or expired record of bucket `b`. */
  function FreeIn(t: Table, b: nat, now: nat): (r: Option<nat>)
    requires 4 * b + 4 <= |t.records|
    ensures r.Some? ==> r.value < 4 && !Live(t.records[4 * b + r.value], now)
  {
    FirstOf(!Live(t.records[4 * b], now), !Live(t.records[4 * b + 1], now),
            !Live(t.records[4 * b + 2], now), !Live(t.records[4 * b + 3], now))
  }

  /** The `i`th record to look at from a rotating start. */
  function Place(start: nat, i: nat): (r: nat)
    ensures r < 4
  {
    (start + i) % 4
  }

  /** `movable_in`: a live record that is not inherited, from a rotating start. */
  function MovableIn(t: Table, b: nat, now: nat): (r: Option<nat>)
    requires 4 * b + 4 <= |t.records|
    ensures r.Some? ==> r.value < 4 && Movable(t.records[4 * b + r.value], now)
  {
    var i0, i1, i2, i3 := Place(t.turn, 0), Place(t.turn, 1), Place(t.turn, 2), Place(t.turn, 3);
    if Movable(t.records[4 * b + i0], now) then Some(i0)
    else if Movable(t.records[4 * b + i1], now) then Some(i1)
    else if Movable(t.records[4 * b + i2], now) then Some(i2)
    else if Movable(t.records[4 * b + i3], now) then Some(i3)
    else None
  }

  function Turned(t: Table): Table { t.(turn := (t.turn + 1) % TWO64) }

  /** Some record of bucket `b` is free, expired, or may be moved on. */
  predicate RoomIn(t: Table, b: nat, now: nat)
    requires 4 * b + 4 <= |t.records|
  {
    || !Live(t.records[4 * b], now) || !t.records[4 * b].inherited
    || !Live(t.records[4 * b + 1], now) || !t.records[4 * b + 1].inherited
    || !Live(t.records[4 * b + 2], now) || !t.records[4 * b + 2].inherited
    || !Live(t.records[4 * b + 3], now) || !t.records[4 * b + 3].inherited
  }

  predicate HasExactRoom(g: Geometry, t: Table, h: nat, now: nat)
    requires Sound(g) && WF(g, t)
  {
    || t.records == []
    || Own(g, t, h, now).Some?
    || RoomIn(t, g.homeOf(h), now)
    || RoomIn(t, g.alt(g.homeOf(h), g.tagOf(h)), now)
  }

  // ---------------------------------------------------------------- writing

  function Put(t: Table, p: nat, r: Record): Table
    requires p < |t.records|
  {
    t.(records := t.records[p := r])
  }

  function Overflow(g: Geometry, t: Table, r: Record, b: nat, now: nat): Table
    requires Sound(g) && Allocated(g, t)
  {
    var low := Min(b, g.alt(b, r.tag));
    var i, j := g.cellA(r.tag, low), g.cellB(r.tag, low);
    var cells := t.cells[i := MergeCell(t.cells[i], r.until, r.spent, now)];
    t.(cells := cells[j := MergeCell(cells[j], r.until, r.spent, now)])
  }

  function Spill(g: Geometry, t: Table, r: Record, b: nat, now: nat, forget: bool): (o: Outcome)
    requires Sound(g) && Allocated(g, t)
    ensures Allocated(g, o.table)
  {
    if forget then Outcome(t, Some(Forgotten), Some(Homeless(r, b)))
    else Outcome(Overflow(g, t, r, b, now), Some(Overflowed), Some(Homeless(r, b)))
  }

  /** The cuckoo walk: `homeless` takes position `4 * b + r`, the record it
      displaces moves to its other bucket, and so on for `kicks` moves. */
  function Walk(g: Geometry, t: Table, b: nat, r: nat, homeless: Record, now: nat, kicks: nat): (w: Walked)
    requires Sound(g) && Allocated(g, t) && b < g.buckets && r < 4 && kicks > 0
    ensures Allocated(g, w.table) && w.table.cells == t.cells && w.table.backoff == t.backoff
    ensures w.left.Some? ==> w.left.value.bucket < g.buckets
    decreases kicks
  {
    var victim := t.records[4 * b + r];
    var t1 := Put(t, 4 * b + r, homeless);
    var b1 := g.alt(b, victim.tag);
    var free := FreeIn(t1, b1, now);
    if free.Some? then Walked(Put(t1, 4 * b1 + free.value, victim), None)
    else if kicks == 1 then Walked(t1, Some(Homeless(victim, b1)))
    else
      var next := MovableIn(t1, b1, now);
      if next.Some? then Walk(g, Turned(t1), b1, next.value, victim, now, kicks - 1)
      else Walked(Turned(t1), Some(Homeless(victim, b1)))
  }

  function Allocate(g: Geometry, t: Table): Table {
    if t.records == [] then
      t.(records := seq(4 * g.buckets, i => EMPTY), cells := seq(g.cells, i => 0))
    else t
  }

  /** The walk from whichever of the key's buckets can give one up. */
  function Displace(g: Geometry, t: Table, debt: Record, home: nat, now: nat, forget: bool, kicks: nat): (o: Outcome)
    requires Sound(g) && Allocated(g, t) && home < g.buckets && kicks > 0
    ensures Allocated(g, o.table)
  {
    var other := g.alt(home, debt.tag);
    var first := MovableIn(t, home, now);
    var second := MovableIn(Turned(t), other, now);
    if first.None? && second.None? then
      var t2 := Turned(Turned(t));
      if debt.inherited then Outcome(t2, None, None) else Spill(g, t2, debt, home, now, forget)
    else
      var w := if first.Some? then Walk(g, Turned(t), home, first.value, debt, now, kicks)
               else Walk(g, Turned(Turned(t)), other, second.value, debt, now, kicks);
      if w.left.None? then Outcome(w.table, Some(Exact), None)
      else Spill(g, w.table.(backoff := WALK_BACKOFF), w.left.value.record, w.left.value.bucket, now, forget)
  }

  /** `record`: keeps the debt `(spent, until)` of the key with hash `h`. */
  function RecordDebt(g: Geometry, t0: Table, h: nat, spent: nat, until: nat, now: nat, forget: bool,
                      inherited: bool): (o: Outcome)
    requires Sound(g) && WF(g, t0)
    ensures Allocated(g, o.table)
  {
    var t := Allocate(g, t0);
    var own := Own(g, t, h, now);
    var debt := Record(g.tagOf(h), spent, Min(until, RECORD_UNTIL_MAX), inherited);
    if own.Some? then
      var r := t.records[own.value];
      Outcome(Put(t, own.value, Merged(r, debt)), Some(Exact), None)
    else
      var home := g.homeOf(h);
      var other := g.alt(home, debt.tag);
      if FreeIn(t, home, now).Some? then
        Outcome(Put(t, 4 * home + FreeIn(t, home, now).value, debt), Some(Exact), None)
      else if FreeIn(t, other, now).Some? then
        Outcome(Put(t, 4 * other + FreeIn(t, other, now).value, debt), Some(Exact), None)
      else if t.backoff == 0 then Displace(g, t, debt, home, now, forget, MAX_KICKS)
      else
        var t1 := t.(backoff := t.backoff - 1);
        if inherited then Displace(g, t1, debt, home, now, forget, 1)
        else Spill(g, t1, debt, home, now, forget)
  }

  /** The larger of each, and inherited if either is. */
  function Merged(r: Record, s: Record): Record {
    Record(r.tag, Max(r.spent, s.spent), Max(r.until, s.until), r.inherited || s.inherited)
  }

  /** `shared`: the sketch's lower bound for an identity, if both cells are live. */
  function Shared(g: Geometry, t: Table, id: Id, now: nat): Option<Charge>
    requires Sound(g) && Allocated(g, t)
  {
    var a, b := t.cells[g.cellA(id.tag, id.low)], t.cells[g.cellB(id.tag, id.low)];
    if CellUntil(a) > now && CellUntil(b) > now then
      Some(Charge(Min(CellSpent(a), CellSpent(b)), Min(CellUntil(a), CellUntil(b)), true))
    else None
  }

  /** `peek`: the debt that applies to the key with hash `h`. */
  function PeekCharge(g: Geometry, t: Table, h: nat, now: nat): Option<Charge>
    requires Sound(g) && WF(g, t)
  {
    if t.records == [] then None
    else
      var own, shared := Own(g, t, h, now), Shared(g, t, IdOf(g, h), now);
      if own.None? then shared
      else
        var r := t.records[own.value];
        if shared.None? then Some(Charge(r.spent, r.until, false))
        else Some(Charge(Max(r.spent, shared.value.spent), Max(r.until, shared.value.until), true))
  }

  /** `forget`: clears the key's own record. */
  function Forget(g: Geometry, t: Table, h: nat, now: nat): Table
    requires Sound(g) && WF(g, t)
  {
    var own := Own(g, t, h, now);
    if own.Some? then Put(t, own.value, EMPTY) else t
  }

  /** `take`: as `peek`, for a key being stored, whose own record is cleared. */
  function Take(g: Geometry, t: Table, h: nat, now: nat): (Option<Charge>, Table)
    requires Sound(g) && WF(g, t)
  {
    var charge := PeekCharge(g, t, h, now);
    (charge, if charge.None? then t else Forget(g, t, h, now))
  }

  /** A key that is charged nothing had no record to clear. */
  lemma TakeForgets(g: Geometry, t: Table, h: nat, now: nat)
    requires Sound(g) && WF(g, t)
    ensures Take(g, t, h, now).1 == Forget(g, t, h, now)
    ensures WF(g, Forget(g, t, h, now))
  {
    hide OwnIn, Shared;
  }

  /** `retain_recent`'s last step: an expired table is released. */
  function Release(t: Table, now: nat): Table {
    if IsSpent(t, now) then NEW else t
  }

  /** `is_spent`: every record and cell has expired. */
  predicate IsSpent(t: Table, now: nat) {
    && (forall p :: 0 <= p < |t.records| ==> !Live(t.records[p], now))
    && (forall c :: 0 <= c < |t.cells| ==> CellUntil(t.cells[c]) <= now)
  }
}
