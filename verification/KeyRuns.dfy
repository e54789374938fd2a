/** What the laws of eviction give a single key: a state restored from a record
    is never looser than the state that was evicted, over any requests. */
module KeyRuns {
  import opened Units
  import opened KeyLaws

  /** `n` units asked for at `at`. */
  datatype Request = Request(n: nat, at: nat)

  predicate Timely(now: nat, horizon: nat, requests: seq<Request>)
    decreases |requests|
  {
    requests == [] ||
    (now <= requests[0].at < horizon && requests[0].n <= U32_MAX && Timely(requests[0].at, horizon, requests[1..]))
  }

  /** Whatever `r` grants of the requests, `s` grants too, when it is charged with
      exactly that. */
  predicate GrantsOnlyWhat<S>(o: KeyOps<S>, r: S, s: S, requests: seq<Request>)
    decreases |requests|
  {
    requests == [] ||
    (var (n, at) := (requests[0].n, requests[0].at);
     var (d, r') := o.acquire(r, n, at);
     && (d == Allow ==> o.acquire(s, n, at).0 == Allow)
     && GrantsOnlyWhat(o, r', if d == Allow then o.acquire(s, n, at).1 else s, requests[1..]))
  }

  /** One request keeps a stricter state stricter. */
  lemma RequestKeeps<S(!new)>(o: KeyOps<S>, k: nat, r: S, s: S, now: nat, n: nat, at: nat)
    requires Orderly(o) && o.valid(k, r, now) && o.valid(k, s, now) && o.native(k, s, now) && o.stricter(r, s, now)
    requires now <= at < o.horizon && n <= U32_MAX
    ensures var (d, r') := o.acquire(r, n, at);
            var s' := if d == Allow then o.acquire(s, n, at).1 else s;
            && (d == Allow ==> o.acquire(s, n, at).0 == Allow)
            && o.valid(k, r', at) && o.valid(k, s', at) && o.native(k, s', at) && o.stricter(r', s', at)
  {
    hide Orderly;
    Ages(o, k, r, now, at);
    Ages(o, k, s, now, at);
    StaysStricter(o, k, r, s, now, at);
    Acquired(o, k, r, n, at);
    Acquired(o, k, s, n, at);
    Simulates(o, k, r, s, n, at);
  }

  lemma {:induction false} StricterGrantsOnlyWhat<S(!new)>(o: KeyOps<S>, k: nat, r: S, s: S, now: nat,
                                                           requests: seq<Request>)
    requires Orderly(o) && o.valid(k, r, now) && o.valid(k, s, now) && o.native(k, s, now) && o.stricter(r, s, now)
    requires Timely(now, o.horizon, requests)
    ensures GrantsOnlyWhat(o, r, s, requests)
    decreases |requests|
  {
    hide Orderly;
    if requests != [] {
      var (n, at) := (requests[0].n, requests[0].at);
      RequestKeeps(o, k, r, s, now, n, at);
      var (d, r') := o.acquire(r, n, at);
      StricterGrantsOnlyWhat(o, k, r', if d == Allow then o.acquire(s, n, at).1 else s, at, requests[1..]);
    }
  }

  /** A fresh state charged at least what the evicted one owed grants only
      requests the evicted one would also have granted, for every sequence of
      requests at nondecreasing instants. */
  lemma RestoreIsNeverLooser<S(!new)>(o: KeyOps<S>, k: nat, s: S, charge: Debt, now: nat, requests: seq<Request>)
    requires Orderly(o) && now < o.horizon && o.valid(k, s, now) && o.native(k, s, now)
    requires o.create(k, now).Some? && Timely(now, o.horizon, requests)
    requires o.debt(s, now).Some? ==>
               o.debt(s, now).value.spent <= charge.spent <= U32_MAX && charge.until >= o.debt(s, now).value.until
    requires charge.spent <= U32_MAX
    ensures GrantsOnlyWhat(o, o.restore(o.create(k, now).value, charge, now), s, requests)
  {
    hide Orderly, GrantsOnlyWhat, Timely;
    var f := o.create(k, now).value;
    Fresh(o, k, now);
    Restored(o, k, f, charge, now);
    var r := o.restore(f, charge, now);
    if o.debt(s, now).Some? {
      Resumes(o, k, s, charge, now);
    } else {
      WholeIsLoosest(o, k, r, s, now);
    }
    StricterGrantsOnlyWhat(o, k, r, s, now, requests);
  }
}
