/** The recovery table as the object the code has (src/store.rs:548-866): arrays
    of records and cells, allocated on first use and changed in place, proved
    against the functions of `RecoveryTable`. */
module RecoveryObject {
  import opened Units
  import opened Probe
  import opened RecoveryTable

  class Recovery {
    const g: Geometry
    const dropped: bool  // `Overflow::Forget`
    var records: array<Record>
    var cells: array<nat>
    var turn: nat
    var backoff: nat

    ghost predicate Valid()
      reads this, records, cells
    {
      Sound(g) && WF(g, Contents())
    }

    ghost function Contents(): Table
      reads this, records, cells
    {
      Table(records[..], cells[..], turn, backoff)
    }

    constructor (g: Geometry, dropped: bool)
      requires Sound(g)
      ensures Valid() && Contents() == NEW && this.g == g && this.dropped == dropped
      ensures fresh(records) && fresh(cells)
    {
      this.g, this.dropped := g, dropped;
      records := new Record[0];
      cells := new nat[0];
      turn, backoff := 0, 0;
    }

    /** `own` within one bucket. */
    method FindIn(b: nat, tag: nat, now: nat) returns (r: Option<nat>)
      requires 4 * b + 4 <= records.Length
      ensures r == OwnIn(Contents(), b, tag, now)
    {
      var i := 0;
      while i < BUCKET_RECORDS
        invariant i <= 4
        invariant i > 0 ==> !Bears(Contents(), 4 * b, tag, now)
        invariant i > 1 ==> !Bears(Contents(), 4 * b + 1, tag, now)
        invariant i > 2 ==> !Bears(Contents(), 4 * b + 2, tag, now)
        invariant i > 3 ==> !Bears(Contents(), 4 * b + 3, tag, now)
      {
        if records[4 * b + i].tag == tag && Live(records[4 * b + i], now) {
          return Some(i);
        }
        i := i + 1;
      }
      return None;
    }

    method Find(h: nat, now: nat) returns (r: Option<nat>)
      requires Valid()
      ensures r == Own(g, Contents(), h, now)
    {
      hide OwnIn;
      if records.Length == 0 { return None; }
      var home, tag := g.homeOf(h), g.tagOf(h);
      var first := FindIn(home, tag, now);
      if first.Some? { return Some(4 * home + first.value); }
      var other := g.alt(home, tag);
      var second := FindIn(other, tag, now);
      return if second.Some? then Some(4 * other + second.value) else None;
    }

    method FindFree(b: nat, now: nat) returns (r: Option<nat>)
      requires 4 * b + 4 <= records.Length
      ensures r == FreeIn(Contents(), b, now)
    {
      var i := 0;
      while i < BUCKET_RECORDS
        invariant i <= 4
        invariant i > 0 ==> Live(Contents().records[4 * b], now)
        invariant i > 1 ==> Live(Contents().records[4 * b + 1], now)
        invariant i > 2 ==> Live(Contents().records[4 * b + 2], now)
        invariant i > 3 ==> Live(Contents().records[4 * b + 3], now)
      {
        if !Live(records[4 * b + i], now) { return Some(i); }
        i := i + 1;
      }
      return None;
    }

    /** `movable_in`, which also turns the starting point. */
    method FindMovable(b: nat, now: nat) returns (r: Option<nat>)
      requires 4 * b + 4 <= records.Length
      modifies this`turn
      ensures r == MovableIn(old(Contents()), b, now) && Contents() == Turned(old(Contents()))
    {
      hide Place;
      var start := turn;
      turn := (turn + 1) % TWO64;
      var i := 0;
      while i < BUCKET_RECORDS
        invariant i <= 4
        invariant Contents() == Turned(old(Contents()))
        invariant i > 0 ==> !Movable(Contents().records[4 * b + Place(start, 0)], now)
        invariant i > 1 ==> !Movable(Contents().records[4 * b + Place(start, 1)], now)
        invariant i > 2 ==> !Movable(Contents().records[4 * b + Place(start, 2)], now)
        invariant i > 3 ==> !Movable(Contents().records[4 * b + Place(start, 3)], now)
      {
        var at := Place(start, i);
        if Movable(records[4 * b + at], now) { return Some(at); }
        i := i + 1;
      }
      return None;
    }

    method Write(p: nat, r: Record)
      requires p < records.Length
      modifies records
      ensures Contents() == Put(old(Contents()), p, r)
    {
      records[p] := r;
    }

    method Merge(c: nat, r: Record, now: nat)
      requires c < cells.Length
      modifies cells
      ensures cells[..] == old(cells[..])[c := MergeCell(old(cells[c]), r.until, r.spent, now)]
    {
      var until, spent := CellUntil(cells[c]), CellSpent(cells[c]);
      if until > now {
        cells[c] := PackCell(Max(until, r.until), Max(spent, r.spent));
      } else {
        cells[c] := PackCell(r.until, r.spent);
      }
    }

    /** `overflow`: each of the record's two cells keeps the larger of each. */
    method Sketch(r: Record, b: nat, now: nat)
      requires Sound(g) && Allocated(g, Contents())
      modifies cells
      ensures Contents() == Overflow(g, old(Contents()), r, b, now)
    {
      hide MergeCell;
      var low := Min(b, g.alt(b, r.tag));
      Merge(g.cellA(r.tag, low), r, now);
      Merge(g.cellB(r.tag, low), r, now);
    }

    method Dispose(r: Record, b: nat, now: nat) returns (kind: Recorded)
      requires Sound(g) && Allocated(g, Contents())
      modifies cells
      ensures var o := Spill(g, old(Contents()), r, b, now, dropped);
              Contents() == o.table && o.result == Some(kind)
    {
      if dropped {
        kind := Forgotten;
      } else {
        Sketch(r, b, now);
        kind := Overflowed;
      }
    }

    /** The cuckoo walk. */
    method Kick(b0: nat, r0: nat, debt: Record, now: nat, budget: nat) returns (left: Option<Homeless>)
      requires Sound(g) && Allocated(g, Contents()) && b0 < g.buckets && r0 < 4 && budget > 0
      modifies records, this`turn
      ensures Walked(Contents(), left) == Walk(g, old(Contents()), b0, r0, debt, now, budget)
    {
      hide FreeIn, MovableIn;
      var b: nat, r: nat, homeless, kick := b0, r0, debt, 1;
      while true
        invariant 1 <= kick <= budget && b < g.buckets && r < 4 && Allocated(g, Contents())
        invariant Walk(g, Contents(), b, r, homeless, now, budget - kick + 1)
               == Walk(g, old(Contents()), b0, r0, debt, now, budget)
        decreases budget - kick
      {
        var victim := records[4 * b + r];
        Write(4 * b + r, homeless);
        homeless := victim;
        b := g.alt(b, homeless.tag);
        var free := FindFree(b, now);
        if free.Some? {
          Write(4 * b + free.value, homeless);
          return None;
        }
        if kick == budget { break; }
        var next := FindMovable(b, now);
        if next.None? { break; }
        r := next.value;
        kick := kick + 1;
      }
      return Some(Homeless(homeless, b));
    }

    method Displaced(debt: Record, home: nat, now: nat, budget: nat) returns (kind: Option<Recorded>)
      requires Sound(g) && Allocated(g, Contents()) && home < g.buckets && budget > 0
      modifies this, records, cells
      ensures records == old(records) && cells == old(cells)
      ensures var o := Displace(g, old(Contents()), debt, home, now, dropped, budget);
              Contents() == o.table && kind == o.result
    {
      hide MovableIn, Walk, Spill, Overflow;
      var other := g.alt(home, debt.tag);
      var b := home;
      var start := FindMovable(home, now);
      if start.None? {
        b := other;
        start := FindMovable(other, now);
      }
      if start.None? {
        if debt.inherited { return None; }
        var k := Dispose(debt, home, now);
        return Some(k);
      }
      var left := Kick(b, start.value, debt, now, budget);
      if left.None? { return Some(Exact); }
      backoff := WALK_BACKOFF;
      var k := Dispose(left.value.record, left.value.bucket, now);
      return Some(k);
    }

    method Alloc()
      requires Valid()
      modifies this
      ensures Valid() && Contents() == Allocate(g, old(Contents()))
      ensures (records == old(records) && cells == old(cells)) || (fresh(records) && fresh(cells))
    {
      if records.Length == 0 {
        records := new Record[4 * g.buckets](i => EMPTY);
        cells := new nat[g.cells](i => 0);
        assert records[..] == seq(4 * g.buckets, i => EMPTY);
        assert cells[..] == seq(g.cells, i => 0);
      }
    }

    /** `record`. */
    method Save(h: nat, spent: nat, until: nat, now: nat, inherited: bool) returns (kind: Option<Recorded>)
      requires Valid()
      modifies this, records, cells
      ensures Valid()
      ensures (records == old(records) && cells == old(cells)) || (fresh(records) && fresh(cells))
      ensures var o := RecordDebt(g, old(Contents()), h, spent, until, now, dropped, inherited);
              Contents() == o.table && kind == o.result
    {
      hide Own, FreeIn, Displace, Spill, Merged, Live;
      Alloc();
      var tag, home := g.tagOf(h), g.homeOf(h);
      var debt := Record(tag, spent, Min(until, RECORD_UNTIL_MAX), inherited);
      var own := Find(h, now);
      if own.Some? {
        Write(own.value, Merged(records[own.value], debt));
        return Some(Exact);
      }
      var free := FindFree(home, now);
      if free.Some? {
        Write(4 * home + free.value, debt);
        return Some(Exact);
      }
      var other := g.alt(home, tag);
      free := FindFree(other, now);
      if free.Some? {
        Write(4 * other + free.value, debt);
        return Some(Exact);
      }
      var budget := MAX_KICKS;
      if backoff > 0 {
        backoff := backoff - 1;
        if !inherited {
          var k := Dispose(debt, home, now);
          return Some(k);
        }
        budget := 1;
      }
      kind := Displaced(debt, home, now, budget);
    }

    method Look(h: nat, now: nat) returns (charge: Option<Charge>)
      requires Valid()
      ensures charge == PeekCharge(g, Contents(), h, now)
    {
      hide Own, CellUntil, CellSpent;
      if records.Length == 0 { return None; }
      var own := Find(h, now);
      var id := IdOf(g, h);
      var a, b := cells[g.cellA(id.tag, id.low)], cells[g.cellB(id.tag, id.low)];
      var shared: Option<Charge> := None;
      if CellUntil(a) > now && CellUntil(b) > now {
        shared := Some(Charge(Min(CellSpent(a), CellSpent(b)), Min(CellUntil(a), CellUntil(b)), true));
      }
      if own.None? { return shared; }
      var r := records[own.value];
      if shared.None? { return Some(Charge(r.spent, r.until, false)); }
      return Some(Charge(Max(r.spent, shared.value.spent), Max(r.until, shared.value.until), true));
    }

    /** `forget`, which also says whether there was a live record. */
    method Clear(h: nat, now: nat) returns (was: bool)
      requires Valid()
      modifies records
      ensures Valid() && Contents() == Forget(g, old(Contents()), h, now)
      ensures was <==> Own(g, old(Contents()), h, now).Some?
    {
      hide Own;
      var own := Find(h, now);
      if own.Some? {
        Write(own.value, EMPTY);
      }
      was := own.Some?;
    }

    method Collect(h: nat, now: nat) returns (charge: Option<Charge>)
      requires Valid()
      modifies records
      ensures Valid()
      ensures (charge, Contents()) == Take(g, old(Contents()), h, now)
    {
      hide Own, PeekCharge, Forget;
      charge := Look(h, now);
      if charge.Some? {
        var _ := Clear(h, now);
      }
    }

    method AllExpired(now: nat) returns (spent: bool)
      requires Valid()
      ensures spent <==> IsSpent(Contents(), now)
    {
      var i := 0;
      while i < records.Length
        invariant i <= records.Length
        invariant forall p :: 0 <= p < i ==> !Live(Contents().records[p], now)
      {
        if Live(records[i], now) {
          assert Live(Contents().records[i], now);
          return false;
        }
        i := i + 1;
      }
      i := 0;
      while i < cells.Length
        invariant i <= cells.Length
        invariant forall c :: 0 <= c < i ==> CellUntil(Contents().cells[c]) <= now
      {
        if CellUntil(cells[i]) > now {
          assert CellUntil(Contents().cells[i]) > now;
          return false;
        }
        i := i + 1;
      }
      return true;
    }

    /** Room for an inherited debt, without recording it. */
    method HasRoom(h: nat, now: nat) returns (room: bool)
      requires Valid()
      ensures room <==> HasExactRoom(g, Contents(), h, now)
    {
      hide Own;
      if records.Length == 0 { return true; }
      var own := Find(h, now);
      if own.Some? { return true; }
      room := BucketHasRoom(g.homeOf(h), now);
      if !room { room := BucketHasRoom(g.alt(g.homeOf(h), g.tagOf(h)), now); }
    }

    method BucketHasRoom(b: nat, now: nat) returns (room: bool)
      requires 4 * b + 4 <= records.Length
      ensures room <==> RoomIn(Contents(), b, now)
    {
      var i := 0;
      while i < BUCKET_RECORDS
        invariant i <= 4
        invariant i > 0 ==> Live(records[4 * b], now) && records[4 * b].inherited
        invariant i > 1 ==> Live(records[4 * b + 1], now) && records[4 * b + 1].inherited
        invariant i > 2 ==> Live(records[4 * b + 2], now) && records[4 * b + 2].inherited
        invariant i > 3 ==> Live(records[4 * b + 3], now) && records[4 * b + 3].inherited
      {
        if !Live(records[4 * b + i], now) || !records[4 * b + i].inherited { return true; }
        i := i + 1;
      }
      return false;
    }
  }
}
