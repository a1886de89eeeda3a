/**
 * The hash chains of a neighbour table, as values.
 *
 * Entries live in a `Slab` (identity -> record); a table's buckets are
 * sequences of identities, each in the order of its `next` pointers.  This
 * module states what a well-formed set of chains is, what a walk along a
 * chain finds, how neigh_hash_grow regroups the chains and how a
 * pointer-to-pointer sweep (the garbage collectors and neigh_flush_dev)
 * rewrites them, and proves the facts the table relies on.
 */
module Chains {
  import opened Wrappers
  import opened Nud
  import opened NeighEntry

  type Slab = map<Id, Neigh>

  /** tbl->hash: the protocol's hash of a key on a device, salted with hash_rnd. */
  type HashFn = (Key, Dev, nat) -> nat

  /** Two entries are for the same (primary_key, dev) pair. */
  predicate SameKey(a: Neigh, b: Neigh) {
    a.key == b.key && a.dev == b.dev
  }

  /** The bucket of a key: `hash(key, dev) & hash_mask`, with `size == hash_mask + 1`. */
  function SlotOf(h: HashFn, rnd: nat, key: Key, dev: Dev, size: nat): (i: nat)
    requires size > 0
    ensures i < size
  {
    h(key, dev, rnd) % size
  }

  function Slot(h: HashFn, rnd: nat, n: Neigh, size: nat): (i: nat)
    requires size > 0
    ensures i < size
  {
    SlotOf(h, rnd, n.key, n.dev, size)
  }

  predicate Distinct(t: seq<Id>) {
    forall p, q :: 0 <= p < q < |t| ==> t[p] != t[q]
  }

  /** Every chained identity is a linked entry sitting in the bucket of its key. */
  predicate Placed(s: Slab, b: seq<seq<Id>>, h: HashFn, rnd: nat) {
    forall i, j :: 0 <= i < |b| && 0 <= j < |b[i]| ==>
      b[i][j] in s && !s[b[i][j]].dead && Slot(h, rnd, s[b[i][j]], |b|) == i
  }

  /** Every linked entry is on the chain of its bucket. */
  predicate Covered(s: Slab, b: seq<seq<Id>>, h: HashFn, rnd: nat)
    requires |b| > 0
  {
    forall id :: id in s && !s[id].dead ==> id in b[Slot(h, rnd, s[id], |b|)]
  }

  /** At most one linked entry per (key, dev). */
  predicate UniqueKeys(s: Slab) {
    forall a, c :: a in s && c in s && !s[a].dead && !s[c].dead && SameKey(s[a], s[c]) ==> a == c
  }

  predicate ChainsOk(s: Slab, b: seq<seq<Id>>, h: HashFn, rnd: nat) {
    && |b| > 0
    && Placed(s, b, h, rnd)
    && (forall i :: 0 <= i < |b| ==> Distinct(b[i]))
    && Covered(s, b, h, rnd)
    && UniqueKeys(s)
  }

  // ---------------------------------------------------------------------
  // Walking a chain (neigh_lookup, the duplicate check of neigh_create)
  // ---------------------------------------------------------------------

  predicate Matches(n: Neigh, key: Key, dev: Dev) {
    n.dev == dev && n.key == key
  }

  /** The first entry of a chain that matches (key, dev). */
  function Find(s: Slab, chain: seq<Id>, key: Key, dev: Dev): (r: Option<Id>)
    requires forall id :: id in chain ==> id in s
    ensures r.Some? ==> r.value in chain && Matches(s[r.value], key, dev)
    ensures r.None? <==> forall id :: id in chain ==> !Matches(s[id], key, dev)
  {
    if |chain| == 0 then None
    else if Matches(s[chain[0]], key, dev) then Some(chain[0])
    else Find(s, chain[1..], key, dev)
  }

  /** The walk stops at the first match: the entry found sits at a position
      of the chain before which no entry matches. */
  lemma {:induction false} FindFirst(s: Slab, chain: seq<Id>, key: Key, dev: Dev)
    requires forall id :: id in chain ==> id in s
    ensures Find(s, chain, key, dev).Some? ==>
      exists i :: 0 <= i < |chain| && chain[i] == Find(s, chain, key, dev).value
        && forall j :: 0 <= j < i ==> !Matches(s[chain[j]], key, dev)
  {
    if |chain| == 0 {
    } else if Matches(s[chain[0]], key, dev) {
      assert chain[0] == Find(s, chain, key, dev).value;
    } else {
      var tail := chain[1..];
      FindFirst(s, tail, key, dev);
      var r := Find(s, tail, key, dev);
      if r.Some? {
        var i :| 0 <= i < |tail| && tail[i] == r.value && forall j :: 0 <= j < i ==> !Matches(s[tail[j]], key, dev);
        assert chain[i + 1] == r.value;
        forall j | 0 <= j < i + 1
          ensures !Matches(s[chain[j]], key, dev)
        {
          if j > 0 { assert chain[j] == tail[j - 1]; }
        }
      }
    }
  }

  /** In well-formed chains, the walk along the bucket of a key finds exactly
      the linked entry for that key, if there is one. */
  lemma FindIsTheEntry(s: Slab, b: seq<seq<Id>>, h: HashFn, rnd: nat, key: Key, dev: Dev, id: Id)
    requires ChainsOk(s, b, h, rnd)
    ensures forall x :: x in b[SlotOf(h, rnd, key, dev, |b|)] ==> x in s
    ensures Find(s, b[SlotOf(h, rnd, key, dev, |b|)], key, dev) == Some(id) <==>
      id in s && !s[id].dead && Matches(s[id], key, dev)
  {
    var k := SlotOf(h, rnd, key, dev, |b|);
    forall x | x in b[k] ensures x in s && !s[x].dead {
      var j :| 0 <= j < |b[k]| && b[k][j] == x;
    }
    if id in s && !s[id].dead && Matches(s[id], key, dev) {
      assert id in b[Slot(h, rnd, s[id], |b|)];
      var r := Find(s, b[k], key, dev);
      assert r.Some? && SameKey(s[r.value], s[id]);
    }
  }

  // ---------------------------------------------------------------------
  // neigh_hash_grow
  // ---------------------------------------------------------------------

  /** The chains one after another, in the order neigh_hash_grow visits them. */
  function Flatten(b: seq<seq<Id>>): (t: seq<Id>)
  {
    if |b| == 0 then [] else Flatten(b[..|b| - 1]) + b[|b| - 1]
  }

  lemma {:induction false} FlattenMem(b: seq<seq<Id>>, x: Id)
    ensures x in Flatten(b) <==> exists i :: 0 <= i < |b| && x in b[i]
  {
    if |b| > 0 {
      var c := b[..|b| - 1];
      FlattenMem(c, x);
      assert x in Flatten(b) <==> x in Flatten(c) || x in b[|b| - 1];
      if x in Flatten(c) {
        var i :| 0 <= i < |c| && x in c[i];
        assert x in b[i];
      }
      if i :| 0 <= i < |b| && x in b[i] {
        if i < |b| - 1 {
          assert x in c[i];
        }
      }
    }
  }

  /** The new chain of bucket `k` after the nodes of `t` were pushed, one by
      one, on the head of the chain of their new bucket. */
  function Gather(s: Slab, t: seq<Id>, h: HashFn, rnd: nat, size: nat, k: nat): seq<Id>
    requires size > 0
    requires forall x :: x in t ==> x in s
  {
    if |t| == 0 then []
    else
      var x := t[|t| - 1];
      if Slot(h, rnd, s[x], size) == k then [x] + Gather(s, t[..|t| - 1], h, rnd, size, k)
      else Gather(s, t[..|t| - 1], h, rnd, size, k)
  }

  /** A node lands in the bucket its key hashes to under the new mask, and nowhere else. */
  lemma {:induction false} GatherMem(s: Slab, t: seq<Id>, h: HashFn, rnd: nat, size: nat, k: nat, x: Id)
    requires size > 0
    requires forall y :: y in t ==> y in s
    ensures x in Gather(s, t, h, rnd, size, k) <==> x in t && Slot(h, rnd, s[x], size) == k
  {
    if |t| > 0 {
      var u := t[..|t| - 1];
      assert forall y :: y in u ==> y in t;
      GatherMem(s, u, h, rnd, size, k, x);
      assert t == u + [t[|t| - 1]];
    }
  }

  /** Regrouping moves every node exactly once. */
  lemma {:induction false} GatherDistinct(s: Slab, t: seq<Id>, h: HashFn, rnd: nat, size: nat, k: nat)
    requires size > 0
    requires forall y :: y in t ==> y in s
    requires Distinct(t)
    ensures Distinct(Gather(s, t, h, rnd, size, k))
  {
    if |t| > 0 {
      var u := t[..|t| - 1];
      var x := t[|t| - 1];
      assert forall y :: y in u ==> y in t;
      GatherDistinct(s, u, h, rnd, size, k);
      if Slot(h, rnd, s[x], size) == k {
        var g := Gather(s, u, h, rnd, size, k);
        GatherMem(s, u, h, rnd, size, k, x);
        assert x !in u;
        assert x !in g;
        var r := [x] + g;
        forall p, q | 0 <= p < q < |r| ensures r[p] != r[q] {
          if p == 0 {
            assert r[q] == g[q - 1];
          } else {
            assert r[p] == g[p - 1] && r[q] == g[q - 1];
          }
        }
      }
    }
  }

  /** The chains of well-placed buckets, read one after another, repeat no node. */
  lemma {:induction false} FlattenDistinct(s: Slab, b: seq<seq<Id>>, h: HashFn, rnd: nat, size: nat)
    requires size > 0 && |b| <= size
    requires forall i, j :: 0 <= i < |b| && 0 <= j < |b[i]| ==>
      b[i][j] in s && Slot(h, rnd, s[b[i][j]], size) == i
    requires forall i :: 0 <= i < |b| ==> Distinct(b[i])
    ensures Distinct(Flatten(b))
    ensures forall x :: x in Flatten(b) ==> x in s && Slot(h, rnd, s[x], size) < |b|
  {
    if |b| > 0 {
      var c := b[..|b| - 1];
      var last := b[|b| - 1];
      FlattenDistinct(s, c, h, rnd, size);
      var f := Flatten(c);
      forall x | x in last ensures x in s && Slot(h, rnd, s[x], size) == |b| - 1 {
        var j :| 0 <= j < |last| && last[j] == x;
      }
      var r := f + last;
      forall p, q | 0 <= p < q < |r| ensures r[p] != r[q] {
        if q < |f| {
        } else if p >= |f| {
          assert r[p] == last[p - |f|] && r[q] == last[q - |f|];
        } else {
          assert r[p] in f && r[q] in last;
        }
      }
    }
  }

  /** The chains after neigh_hash_grow to `size` buckets, given the salt in force. */
  function Regroup(s: Slab, b: seq<seq<Id>>, h: HashFn, rnd: nat, size: nat): (nb: seq<seq<Id>>)
    requires size > 0
    requires forall i, j :: 0 <= i < |b| && 0 <= j < |b[i]| ==> b[i][j] in s
  {
    FlattenMemAll(b, s);
    seq(size, k requires 0 <= k < size => Gather(s, Flatten(b), h, rnd, size, k))
  }

  lemma FlattenMemAll(b: seq<seq<Id>>, s: Slab)
    requires forall i, j :: 0 <= i < |b| && 0 <= j < |b[i]| ==> b[i][j] in s
    ensures forall x :: x in Flatten(b) ==> x in s
  {
    forall x | x in Flatten(b) ensures x in s {
      FlattenMem(b, x);
      var i :| 0 <= i < |b| && x in b[i];
      var j :| 0 <= j < |b[i]| && b[i][j] == x;
    }
  }

  /** neigh_hash_grow keeps the chains well formed under the new size and
      salt, and links exactly the entries that were linked before. */
  lemma RegroupOk(s: Slab, b: seq<seq<Id>>, h: HashFn, rnd: nat, rnd2: nat, size: nat)
    requires ChainsOk(s, b, h, rnd)
    requires size > 0
    ensures ChainsOk(s, Regroup(s, b, h, rnd2, size), h, rnd2)
    ensures ChainIds(Regroup(s, b, h, rnd2, size)) == ChainIds(b)
  {
    var nb := Regroup(s, b, h, rnd2, size);
    var t := Flatten(b);
    FlattenMemAll(b, s);
    FlattenDistinct(s, b, h, rnd, |b|);
    forall k | 0 <= k < size ensures Distinct(nb[k]) {
      GatherDistinct(s, t, h, rnd2, size, k);
    }
    forall x | x in t ensures !s[x].dead {
      FlattenMem(b, x);
      var i :| 0 <= i < |b| && x in b[i];
      var j :| 0 <= j < |b[i]| && b[i][j] == x;
    }
    forall k, j | 0 <= k < size && 0 <= j < |nb[k]|
      ensures nb[k][j] in s && !s[nb[k][j]].dead && Slot(h, rnd2, s[nb[k][j]], size) == k
    {
      GatherMem(s, t, h, rnd2, size, k, nb[k][j]);
    }
    forall id | id in s && !s[id].dead ensures id in nb[Slot(h, rnd2, s[id], size)] {
      assert id in b[Slot(h, rnd, s[id], |b|)];
      FlattenMem(b, id);
      GatherMem(s, t, h, rnd2, size, Slot(h, rnd2, s[id], size), id);
    }
    forall x | x in ChainIds(nb) ensures x in ChainIds(b) {
      var k, j :| 0 <= k < |nb| && 0 <= j < |nb[k]| && nb[k][j] == x;
      GatherMem(s, t, h, rnd2, size, k, x);
      FlattenMem(b, x);
      var i :| 0 <= i < |b| && x in b[i];
      var j' :| 0 <= j' < |b[i]| && b[i][j'] == x;
    }
    forall x | x in ChainIds(b) ensures x in ChainIds(nb) {
      var i, j :| 0 <= i < |b| && 0 <= j < |b[i]| && b[i][j] == x;
      FlattenMem(b, x);
      var k := Slot(h, rnd2, s[x], size);
      GatherMem(s, t, h, rnd2, size, k, x);
      var j' :| 0 <= j' < |nb[k]| && nb[k][j'] == x;
    }
  }

  // ---------------------------------------------------------------------
  // Sweeping the chains (neigh_forced_gc, neigh_periodic_work, neigh_flush_dev)
  // ---------------------------------------------------------------------

  /** What a sweep does with one linked entry: keep it linked (possibly
      updated), unlink it while others still hold it (a stray entry), or
      unlink it and drop the last reference, so that it is destroyed. */
  datatype Fate = Stay(n: Neigh) | Stray(n: Neigh) | Freed

  /** A sweep decision keeps the key, device and parameters of an entry and
      its reference discipline; only a stray entry leaves the table. */
  ghost predicate FateOk(f: Neigh -> Fate) {
    forall n :: EntryOk(n) && !n.dead ==> FateKeeps(n, f(n))
  }

  /** A freed entry was held by nobody but the table and its own timer. */
  predicate FateKeeps(n: Neigh, fate: Fate) {
    match fate
    case Stay(m) => SameKey(m, n) && m.parms == n.parms && !m.dead && EntryOk(m)
    case Stray(m) => SameKey(m, n) && m.parms == n.parms && m.dead && EntryOk(m)
    case Freed => n.refcnt == OwnRefs(n)
  }

  /** The identities a sweep leaves on a chain, in their order. */
  function Kept(s: Slab, chain: seq<Id>, f: Neigh -> Fate): (r: seq<Id>)
    requires forall id :: id in chain ==> id in s
  {
    if |chain| == 0 then []
    else
      var x := chain[|chain| - 1];
      Kept(s, chain[..|chain| - 1], f) + (if f(s[x]).Stay? then [x] else [])
  }

  lemma {:induction false} KeptMem(s: Slab, chain: seq<Id>, f: Neigh -> Fate, x: Id)
    requires forall id :: id in chain ==> id in s
    ensures x in Kept(s, chain, f) <==> x in chain && f(s[x]).Stay?
  {
    if |chain| > 0 {
      var u := chain[..|chain| - 1];
      assert forall y :: y in u ==> y in chain;
      KeptMem(s, u, f, x);
      assert chain == u + [chain[|chain| - 1]];
    }
  }

  lemma {:induction false} KeptDistinct(s: Slab, chain: seq<Id>, f: Neigh -> Fate)
    requires forall id :: id in chain ==> id in s
    requires Distinct(chain)
    ensures Distinct(Kept(s, chain, f))
  {
    if |chain| > 0 {
      var u := chain[..|chain| - 1];
      var x := chain[|chain| - 1];
      assert forall y :: y in u ==> y in chain;
      KeptDistinct(s, u, f);
      if f(s[x]).Stay? {
        var k := Kept(s, u, f);
        KeptMem(s, u, f, x);
        assert x !in u;
        var r := k + [x];
        forall p, q | 0 <= p < q < |r| ensures r[p] != r[q] {
          if q == |k| {
            assert r[p] in k;
          }
        }
      }
    }
  }

  /** The slab after the fate was applied to the linked entries in `done`. */
  function SweepOn(s0: Slab, f: Neigh -> Fate, done: set<Id>): Slab
  {
    map id | id in s0 && !(id in done && f(s0[id]).Freed?) ::
      if id in done then f(s0[id]).n else s0[id]
  }

  /** Applying the fate to one more entry. */
  function Settle(s: Slab, id: Id, fate: Fate): Slab {
    if fate.Freed? then s - {id} else s[id := fate.n]
  }

  lemma SweepOnStep(s0: Slab, f: Neigh -> Fate, done: set<Id>, id: Id)
    requires id in s0 && id !in done
    ensures SweepOn(s0, f, done + {id}) == Settle(SweepOn(s0, f, done), id, f(s0[id]))
  {
    var l := SweepOn(s0, f, done + {id});
    var r := Settle(SweepOn(s0, f, done), id, f(s0[id]));
    assert l.Keys == r.Keys;
    forall k | k in l.Keys ensures l[k] == r[k] {
    }
  }

  lemma SweepOnEmpty(s0: Slab, f: Neigh -> Fate)
    ensures SweepOn(s0, f, {}) == s0
  {
    var l := SweepOn(s0, f, {});
    assert l.Keys == s0.Keys;
  }

  /** The identities of the chains `b[..i]`. */
  function ChainIds(b: seq<seq<Id>>): set<Id> {
    set i, j | 0 <= i < |b| && 0 <= j < |b[i]| :: b[i][j]
  }

  /** The sweep of all chains: the entries on them meet their fate, the rest
      of the slab is untouched, and each chain keeps its survivors in order. */
  lemma SweepOk(s0: Slab, b: seq<seq<Id>>, h: HashFn, rnd: nat, f: Neigh -> Fate)
    requires ChainsOk(s0, b, h, rnd)
    requires FateOk(f)
    requires forall id :: id in s0 ==> EntryOk(s0[id])
    ensures forall i :: 0 <= i < |b| ==> forall id :: id in b[i] ==> id in s0
    ensures
      var s := SweepOn(s0, f, ChainIds(b));
      var nb := seq(|b|, i requires 0 <= i < |b| => Kept(s0, b[i], f));
      ChainsOk(s, nb, h, rnd) && (forall id :: id in s ==> EntryOk(s[id]))
  {
    var s := SweepOn(s0, f, ChainIds(b));
    var nb := seq(|b|, i requires 0 <= i < |b| => Kept(s0, b[i], f));
    forall i, id | 0 <= i < |b| && id in b[i] ensures id in s0 {
      var j :| 0 <= j < |b[i]| && b[i][j] == id;
    }
    forall id | id in s0 && !s0[id].dead ensures id in ChainIds(b) {
      var i := Slot(h, rnd, s0[id], |b|);
      var j :| 0 <= j < |b[i]| && b[i][j] == id;
    }
    forall id | id in ChainIds(b) ensures id in s0 && !s0[id].dead {
      var i, j :| 0 <= i < |b| && 0 <= j < |b[i]| && b[i][j] == id;
    }
    forall id | id in s ensures EntryOk(s[id]) && SameKey(s[id], s0[id]) && (s[id].dead <==> !(id in ChainIds(b) && f(s0[id]).Stay?)) {
    }
    forall i | 0 <= i < |b| ensures Distinct(nb[i]) {
      KeptDistinct(s0, b[i], f);
    }
    forall i, j | 0 <= i < |nb| && 0 <= j < |nb[i]|
      ensures nb[i][j] in s && !s[nb[i][j]].dead && Slot(h, rnd, s[nb[i][j]], |nb|) == i
    {
      KeptMem(s0, b[i], f, nb[i][j]);
      var x := nb[i][j];
      var j0 :| 0 <= j0 < |b[i]| && b[i][j0] == x;
    }
    forall id | id in s && !s[id].dead ensures id in nb[Slot(h, rnd, s[id], |nb|)] {
      var i := Slot(h, rnd, s0[id], |b|);
      KeptMem(s0, b[i], f, id);
    }
  }

  // ---------------------------------------------------------------------
  // The walks themselves
  // ---------------------------------------------------------------------

  function Elems(t: seq<Id>): set<Id> {
    set x | x in t
  }

  lemma ChainIdsSnoc(b: seq<seq<Id>>, i: nat)
    requires i < |b|
    ensures ChainIds(b[..i + 1]) == ChainIds(b[..i]) + Elems(b[i])
  {
    var l := ChainIds(b[..i + 1]);
    var r := ChainIds(b[..i]) + Elems(b[i]);
    forall x | x in l ensures x in r {
      var k, j :| 0 <= k < i + 1 && 0 <= j < |b[..i + 1][k]| && b[..i + 1][k][j] == x;
      if k < i {
        assert b[..i][k][j] == x;
      }
    }
    forall x | x in r ensures x in l {
      if x in Elems(b[i]) {
        var j :| 0 <= j < |b[i]| && b[i][j] == x;
        assert b[..i + 1][i][j] == x;
      } else {
        var k, j :| 0 <= k < i && 0 <= j < |b[..i][k]| && b[..i][k][j] == x;
        assert b[..i + 1][k][j] == x;
      }
    }
  }

  /** The walk of one chain in neigh_lookup and neigh_create: follow the
      `next` pointers until an entry for (key, dev) turns up. */
  method FindInChain(s: Slab, chain: seq<Id>, key: Key, dev: Dev) returns (r: Option<Id>)
    requires forall id :: id in chain ==> id in s
    ensures r == Find(s, chain, key, dev)
  {
    var j := 0;
    while j < |chain|
      invariant 0 <= j <= |chain|
      invariant Find(s, chain, key, dev) == Find(s, chain[j..], key, dev)
    {
      if Matches(s[chain[j]], key, dev) {
        return Some(chain[j]);
      }
      assert chain[j..][1..] == chain[j + 1..];
      j := j + 1;
    }
    return None;
  }

  /** Settling one entry removes it from the slab exactly when it is freed. */
  lemma SettleSize(s: Slab, id: Id, fate: Fate)
    requires id in s
    ensures |Settle(s, id, fate)| == |s| - (if fate.Freed? then 1 else 0)
  {
    if fate.Freed? {
      assert s.Keys == (s - {id}).Keys + {id};
    } else {
      assert s[id := fate.n].Keys == s.Keys;
    }
  }

  /** Every entry of the chain survives the sweep. */
  predicate AllStay(s0: Slab, chain: seq<Id>, f: Neigh -> Fate)
    requires forall x :: x in chain ==> x in s0
  {
    forall j :: 0 <= j < |chain| ==> f(s0[chain[j]]).Stay?
  }

  /** The pointer-to-pointer walk of one chain by a sweep: each entry meets
      its fate; survivors stay linked in order, the others are unlinked,
      and the freed ones are counted. */
  method SweepChain(s0: Slab, f: Neigh -> Fate, done: set<Id>, s: Slab, chain: seq<Id>)
    returns (s1: Slab, kept: seq<Id>, unlinked: bool, freed: nat)
    requires s == SweepOn(s0, f, done)
    requires forall x :: x in chain ==> x in s0 && x !in done
    requires Distinct(chain)
    ensures s1 == SweepOn(s0, f, done + Elems(chain))
    ensures kept == Kept(s0, chain, f)
    ensures unlinked <==> !AllStay(s0, chain, f)
    ensures |s1| + freed == |s|
  {
    s1, kept, unlinked, freed := s, [], false, 0;
    ghost var dn := done;
    assert Elems(chain[..0]) == {};
    for j := 0 to |chain|
      invariant dn == done + Elems(chain[..j])
      invariant s1 == SweepOn(s0, f, dn)
      invariant kept == Kept(s0, chain[..j], f)
      invariant unlinked <==> !AllStay(s0, chain[..j], f)
      invariant |s1| + freed == |s|
    {
      var id := chain[j];
      TakeOneMore(chain, j);
      assert id !in dn by {
        assert forall p :: 0 <= p < j ==> chain[p] != id;
      }
      SweepOnStep(s0, f, dn, id);
      var fate := f(s0[id]);
      SettleSize(s1, id, fate);
      s1 := Settle(s1, id, fate);
      dn := dn + {id};
      if fate.Stay? {
        kept := kept + [id];
      } else {
        unlinked := true;
        if fate.Freed? {
          freed := freed + 1;
        }
      }
    }
    assert chain[..|chain|] == chain;
  }

  /** A prefix one element longer. */
  lemma TakeOneMore(t: seq<Id>, j: nat)
    requires j < |t|
    ensures t[..j + 1] == t[..j] + [t[j]] && t[..j + 1][..j] == t[..j]
    ensures Elems(t[..j + 1]) == Elems(t[..j]) + {t[j]}
  {
    assert t[..j + 1] == t[..j] + [t[j]];
  }

  /** The entries on bucket `i` are not on the buckets before it. */
  lemma ChainIdsBelow(s: Slab, b: seq<seq<Id>>, h: HashFn, rnd: nat, i: nat)
    requires ChainsOk(s, b, h, rnd) && i < |b|
    ensures forall x :: x in b[i] ==> x in s && x !in ChainIds(b[..i])
  {
    forall x | x in ChainIds(b[..i]) ensures x in s && Slot(h, rnd, s[x], |b|) < i {
      var k, j :| 0 <= k < i && 0 <= j < |b[..i][k]| && b[..i][k][j] == x;
      assert b[k][j] == x;
    }
    forall x | x in b[i] ensures x in s && Slot(h, rnd, s[x], |b|) == i {
      var j :| 0 <= j < |b[i]| && b[i][j] == x;
    }
  }

  /** The sweep of every bucket, from 0 to hash_mask. */
  method SweepAll(s0: Slab, b0: seq<seq<Id>>, h: HashFn, rnd: nat, f: Neigh -> Fate)
    returns (s: Slab, nb: seq<seq<Id>>, unlinked: bool, freed: nat)
    requires ChainsOk(s0, b0, h, rnd)
    ensures s == SweepOn(s0, f, ChainIds(b0))
    ensures |nb| == |b0| && forall i :: 0 <= i < |b0| ==> nb[i] == Kept(s0, b0[i], f)
    ensures unlinked <==> exists i :: 0 <= i < |b0| && !AllStay(s0, b0[i], f)
    ensures |s| + freed == |s0|
  {
    s, nb, unlinked, freed := s0, b0, false, 0;
    SweepOnEmpty(s0, f);
    assert ChainIds(b0[..0]) == {};
    for i := 0 to |b0|
      invariant s == SweepOn(s0, f, ChainIds(b0[..i]))
      invariant |nb| == |b0|
      invariant forall k :: 0 <= k < i ==> nb[k] == Kept(s0, b0[k], f)
      invariant forall k :: i <= k < |b0| ==> nb[k] == b0[k]
      invariant unlinked <==> exists k :: 0 <= k < i && !AllStay(s0, b0[k], f)
      invariant |s| + freed == |s0|
    {
      ChainIdsSnoc(b0, i);
      ChainIdsBelow(s0, b0, h, rnd, i);
      var s1, kept, u, fr := SweepChain(s0, f, ChainIds(b0[..i]), s, b0[i]);
      s, unlinked, freed := s1, unlinked || u, freed + fr;
      nb := nb[i := kept];
    }
    assert b0[..|b0|] == b0;
  }

  /** neigh_hash_grow's move loop: every node of the old chains, bucket by
      bucket and along each chain, is pushed on the head of its new bucket. */
  method Rehash(s: Slab, b: seq<seq<Id>>, h: HashFn, rnd: nat, size: nat) returns (nb: seq<seq<Id>>)
    requires size > 0
    requires forall i, j :: 0 <= i < |b| && 0 <= j < |b[i]| ==> b[i][j] in s
    ensures nb == Regroup(s, b, h, rnd, size)
  {
    nb := seq(size, k => []);
    assert b[..0] == [];
    for i := 0 to |b|
      invariant |nb| == size
      invariant forall x :: x in Flatten(b[..i]) ==> x in s
      invariant forall k :: 0 <= k < size ==> nb[k] == Gather(s, Flatten(b[..i]), h, rnd, size, k)
    {
      var chain := b[i];
      ghost var t := Flatten(b[..i]);
      assert b[..i + 1][..i] == b[..i];
      assert Flatten(b[..i + 1]) == t + chain;
      assert t + chain[..0] == t;
      for j := 0 to |chain|
        invariant |nb| == size
        invariant forall x :: x in t + chain[..j] ==> x in s
        invariant forall k :: 0 <= k < size ==> nb[k] == Gather(s, t + chain[..j], h, rnd, size, k)
      {
        var x := chain[j];
        var k := SlotOf(h, rnd, s[x].key, s[x].dev, size);
        assert (t + chain[..j + 1])[..|t| + j] == t + chain[..j];
        nb := nb[k := [x] + nb[k]];
      }
      assert chain[..|chain|] == chain;
    }
    assert b[..|b|] == b;
    FlattenMemAll(b, s);
  }

  // ---------------------------------------------------------------------
  // Single-entry edits of a table
  // ---------------------------------------------------------------------

  /** Rewriting an entry in place, without moving it, keeps the chains well formed. */
  lemma ChainsOkReplace(s: Slab, b: seq<seq<Id>>, h: HashFn, rnd: nat, id: Id, m: Neigh)
    requires ChainsOk(s, b, h, rnd)
    requires id in s && SameKey(m, s[id]) && m.dead == s[id].dead
    ensures ChainsOk(s[id := m], b, h, rnd)
  {
  }

  /** Dropping or adding an unlinked entry keeps the chains well formed. */
  lemma ChainsOkUnlinked(s: Slab, b: seq<seq<Id>>, h: HashFn, rnd: nat, id: Id, m: Neigh)
    requires ChainsOk(s, b, h, rnd)
    requires m.dead && (id in s ==> s[id].dead)
    ensures ChainsOk(s[id := m], b, h, rnd)
    ensures ChainsOk(s - {id}, b, h, rnd)
  {
    forall i, j | 0 <= i < |b| && 0 <= j < |b[i]| ensures b[i][j] != id {
    }
  }

  /** Linking an entry at the head of its bucket, when no linked entry has
      its key, keeps the chains well formed. */
  lemma ChainsOkLink(s: Slab, b: seq<seq<Id>>, h: HashFn, rnd: nat, id: Id, m: Neigh)
    requires ChainsOk(s, b, h, rnd)
    requires id in s && s[id].dead && !m.dead
    requires forall x :: x in s && !s[x].dead ==> !SameKey(s[x], m)
    ensures var k := Slot(h, rnd, m, |b|);
      ChainsOk(s[id := m], b[k := [id] + b[k]], h, rnd)
  {
    var k := Slot(h, rnd, m, |b|);
    var s1 := s[id := m];
    var b1 := b[k := [id] + b[k]];
    forall i, j | 0 <= i < |b| && 0 <= j < |b[i]| ensures b[i][j] != id {
    }
    forall i, j | 0 <= i < |b1| && 0 <= j < |b1[i]|
      ensures b1[i][j] in s1 && !s1[b1[i][j]].dead && Slot(h, rnd, s1[b1[i][j]], |b1|) == i
    {
      if i == k && j > 0 {
        assert b1[i][j] == b[k][j - 1];
      }
    }
    forall i | 0 <= i < |b1| ensures Distinct(b1[i]) {
      if i == k {
        forall p, q | 0 <= p < q < |b1[i]| ensures b1[i][p] != b1[i][q] {
          assert b1[i][q] == b[k][q - 1];
          if p > 0 {
            assert b1[i][p] == b[k][p - 1];
          }
        }
      }
    }
  }
}
