/** The index is a bijection with the slots (src/store.rs:903-950), so that a
    shard is, to its callers, a set of slots with distinct keys. */
module ShardIndex {
  import opened Units
  import opened Shard

  /** Every slot is indexed once, under its own hash, and no key twice. */
  ghost predicate Indexed<S(!new)>(c: Config<S>, sh: Shard<S>) {
    && (forall p: nat :: p < |sh.slots| ==> (sh.slots[p].hash, p) in sh.index)
    && (forall p: nat :: p < |sh.slots| ==> sh.slots[p].hash == c.hash(sh.slots[p].key))
    && (forall e :: e in sh.index ==> e.1 < |sh.slots| && sh.slots[e.1].hash == e.0)
    && KeysDiffer(sh.slots)
  }

  ghost predicate KeysDiffer<S(!new)>(slots: seq<Slot<S>>) {
    forall p: nat, q: nat :: p < |slots| && q < |slots| && slots[p].key == slots[q].key ==> p == q
  }

  /** What a shard stores, positions aside. */
  ghost function Content<S(!new)>(sh: Shard<S>): set<Slot<S>> { Members(sh.slots) }

  ghost function Members<S(!new)>(slots: seq<Slot<S>>): set<Slot<S>> { set x | x in slots }

  ghost predicate Stored<S(!new)>(xs: set<Slot<S>>, key: nat) { exists x :: x in xs && x.key == key }

  // ----------------------------------------------------------------- lookup

  lemma {:induction false} PositionInFinds<S(!new)>(sh: Shard<S>, hash: nat, key: nat, n: nat, p: nat)
    requires n <= |sh.slots| && KeysDiffer(sh.slots)
    requires p < n && Matches(sh, hash, key, p)
    ensures PositionIn(sh, hash, key, n) == Some(p)
    decreases n
  {
    if p != n - 1 {
      assert !Matches(sh, hash, key, n - 1);
      PositionInFinds(sh, hash, key, n - 1, p);
    }
  }

  /** Lookup finds a key exactly where it is stored, and nothing if it is not. */
  lemma LookupIff<S(!new)>(c: Config<S>, sh: Shard<S>, key: nat)
    requires Indexed(c, sh)
    ensures forall p: nat :: Position(sh, c.hash(key), key) == Some(p) <==> p < |sh.slots| && sh.slots[p].key == key
    ensures Position(sh, c.hash(key), key).Some? <==> Stored(Content(sh), key)
    ensures Position(sh, c.hash(key), key).Some? ==> sh.slots[Position(sh, c.hash(key), key).value] in Content(sh)
  {
    hide PositionIn;
    forall p: nat | p < |sh.slots| && sh.slots[p].key == key
      ensures Position(sh, c.hash(key), key) == Some(p)
    {
      PositionInFinds(sh, c.hash(key), key, |sh.slots|, p);
    }
  }

  lemma ContentAt<S(!new)>(sh: Shard<S>, pos: nat)
    requires pos < |sh.slots|
    ensures sh.slots[pos] in Content(sh)
  {
  }

  lemma OneSlotPerKey<S(!new)>(c: Config<S>, sh: Shard<S>, x: Slot<S>, y: Slot<S>)
    requires Indexed(c, sh) && x in Content(sh) && y in Content(sh) && x.key == y.key
    ensures x == y
  {
    var p: nat :| p < |sh.slots| && sh.slots[p] == x;
    var q: nat :| q < |sh.slots| && sh.slots[q] == y;
  }

  // ---------------------------------------------------------------- updates

  lemma InsertContent<S(!new)>(sh: Shard<S>, x: Slot<S>)
    ensures Content(Insert(sh, x)) == Content(sh) + {x}
  {
  }

  lemma InsertIndexes<S(!new)>(c: Config<S>, sh: Shard<S>, x: Slot<S>)
    requires Indexed(c, sh) && !Stored(Content(sh), x.key) && x.hash == c.hash(x.key)
    ensures Indexed(c, Insert(sh, x)) && Content(Insert(sh, x)) == Content(sh) + {x}
  {
    var r := Insert(sh, x);
    InsertContent(sh, x);
    forall p: nat | p < |sh.slots| ensures r.slots[p] == sh.slots[p] && sh.slots[p].key != x.key {
      assert sh.slots[p] in Content(sh);
    }
  }

  lemma ReplaceContent<S(!new)>(slots: seq<Slot<S>>, pos: nat, x: Slot<S>)
    requires KeysDiffer(slots) && pos < |slots|
    ensures Members(slots[pos := x]) == Members(slots) - {slots[pos]} + {x}
  {
    var r := slots[pos := x];
    forall y | y in slots && y != slots[pos] ensures y in r {
      var p: nat :| p < |slots| && slots[p] == y;
      assert r[p] == y;
    }
    assert r[pos] == x;
  }

  lemma ReplaceIndexes<S(!new)>(c: Config<S>, sh: Shard<S>, pos: nat, x: Slot<S>)
    requires Indexed(c, sh) && pos < |sh.slots| && x.key == sh.slots[pos].key && x.hash == sh.slots[pos].hash
    ensures var r := sh.(slots := sh.slots[pos := x]);
            Indexed(c, r) && Content(r) == Content(sh) - {sh.slots[pos]} + {x}
  {
    ReplaceContent(sh.slots, pos, x);
  }

  lemma RemoveContent<S(!new)>(slots: seq<Slot<S>>, pos: nat)
    requires KeysDiffer(slots) && pos < |slots|
    ensures var r := slots[pos := slots[|slots| - 1]][..|slots| - 1];
            Members(r) == Members(slots) - {slots[pos]}
  {
    var last := |slots| - 1;
    var r := slots[pos := slots[last]][..last];
    forall y | y in slots && y != slots[pos] ensures y in r {
      var p: nat :| p < |slots| && slots[p] == y;
      assert if p == last then r[pos] == y else r[p] == y;
    }
    forall y | y in r ensures y in slots && y != slots[pos] {
      var p: nat :| p < |r| && r[p] == y;
      assert y == if p == pos then slots[last] else slots[p];
    }
  }

  lemma RemoveKeys<S(!new)>(slots: seq<Slot<S>>, pos: nat)
    requires KeysDiffer(slots) && pos < |slots|
    ensures KeysDiffer(slots[pos := slots[|slots| - 1]][..|slots| - 1])
  {
  }

  /** Swap-remove keeps the bijection and removes exactly one slot. */
  lemma RemoveIndexes<S(!new)>(c: Config<S>, sh: Shard<S>, pos: nat)
    requires Indexed(c, sh) && pos < |sh.slots|
    ensures Indexed(c, RemoveAt(sh, pos))
    ensures Content(RemoveAt(sh, pos)) == Content(sh) - {sh.slots[pos]}
  {
    RemoveContent(sh.slots, pos);
    RemoveKeys(sh.slots, pos);
    var r, last := RemoveAt(sh, pos), |sh.slots| - 1;
    forall p: nat | p < last
      ensures r.slots[p] == (if p == pos then sh.slots[last] else sh.slots[p]) && (r.slots[p].hash, p) in r.index
    {
    }
    forall e | e in r.index ensures e.1 < last && r.slots[e.1].hash == e.0 {
      if e != (sh.slots[last].hash, pos) {
        assert e in sh.index && e.1 <= last && sh.slots[e.1].hash == e.0;
        assert e != (sh.slots[pos].hash, pos) && e != (sh.slots[last].hash, last);
      }
    }
  }
}
