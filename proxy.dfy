/**
 * The proxy side of a neighbour table (net/core/neighbour.c): the sixteen
 * buckets of proxy entries (struct pneigh_entry) and the delay queue of
 * proxied requests with its timer.
 *
 * Everything here works on values; the table class owns the buckets and
 * the queue and reassigns them.
 */
module Proxy {
  import opened Wrappers
  import opened NeighEntry
  import opened Seqs

  /** Mask of the proxy bucket index: there are sixteen buckets. */
  const PNEIGH_HASHMASK: nat := 0xF

  /** struct pneigh_entry: a key answered for, on one device or (dev NULL)
      on every device. */
  datatype PEntry = PEntry(key: Key, dev: Option<Dev>)

  // ---------------------------------------------------------------------
  // pneigh_hash
  // ---------------------------------------------------------------------

  /** The last four bytes of a key, read as one 32-bit word.  The load is in
      the byte order of the host; a little-endian host is assumed here, and
      PneighHashByteOrder shows the result does not depend on it. */
  function LastWord(key: Key): bv32
    requires |key| >= 4
  {
    var n := |key|;
    Word(key[n - 4] as bv8, key[n - 3] as bv8, key[n - 2] as bv8, key[n - 1] as bv8)
  }

  function Word(a: bv8, b: bv8, c: bv8, d: bv8): bv32 {
    (a as bv32) | ((b as bv32) << 8) | ((c as bv32) << 16) | ((d as bv32) << 24)
  }

  /** The folding of pneigh_hash: the word is xor-ed with itself shifted
      right by 16, 8 and 4, and the low four bits are kept. */
  function Fold(w: bv32): (h: bv32)
    ensures h <= 0xF
  {
    var w1 := w ^ (w >> 16);
    var w2 := w1 ^ (w1 >> 8);
    var w3 := w2 ^ (w2 >> 4);
    w3 & 0xF
  }

  /** pneigh_hash: the proxy bucket of a key. */
  function PneighHash(key: Key): (h: nat)
    requires |key| >= 4
    ensures h <= PNEIGH_HASHMASK
  {
    Fold(LastWord(key)) as nat
  }

  /** The exclusive or of the two nibbles of a byte. */
  function Nibbles(b: bv8): bv8 {
    (b ^ (b >> 4)) & 0xF
  }

  /** The folding keeps exactly the exclusive or of the eight nibbles of the word. */
  lemma FoldIsNibbleXor(a: bv8, b: bv8, c: bv8, d: bv8)
    ensures Fold(Word(a, b, c, d)) == (Nibbles(a) ^ Nibbles(b) ^ Nibbles(c) ^ Nibbles(d)) as bv32
  {
  }

  /** pneigh_hash depends only on the multiset of the last four bytes, so
      the host's byte order does not change the bucket. */
  lemma PneighHashByteOrder(a: bv8, b: bv8, c: bv8, d: bv8)
    ensures Fold(Word(a, b, c, d)) == Fold(Word(d, c, b, a))
    ensures Fold(Word(a, b, c, d)) == Fold(Word(b, a, c, d))
  {
    FoldIsNibbleXor(a, b, c, d);
    FoldIsNibbleXor(d, c, b, a);
    FoldIsNibbleXor(b, a, c, d);
  }

  // ---------------------------------------------------------------------
  // __pneigh_lookup_1, pneigh_delete, pneigh_ifdown
  // ---------------------------------------------------------------------

  /** An entry answers for (key, dev): same key, and the entry's device is
      the one asked for or the entry is for every device. */
  predicate Answers(e: PEntry, key: Key, dev: Option<Dev>) {
    e.key == key && (e.dev == dev || e.dev.None?)
  }

  /** The first entry of a chain that answers for (key, dev). */
  function PFind(chain: seq<PEntry>, key: Key, dev: Option<Dev>): (r: Option<PEntry>)
    ensures r.Some? ==> r.value in chain && Answers(r.value, key, dev)
    ensures r.None? <==> forall e :: e in chain ==> !Answers(e, key, dev)
  {
    if |chain| == 0 then None
    else if Answers(chain[0], key, dev) then Some(chain[0])
    else PFind(chain[1..], key, dev)
  }

  /** The walk stops at the first entry that answers: no entry before the
      one found answers for (key, dev), so an exact entry later in the chain
      is shadowed by an earlier wildcard one and the other way round. */
  lemma {:induction false} PFindFirst(chain: seq<PEntry>, key: Key, dev: Option<Dev>)
    ensures PFind(chain, key, dev).Some? ==>
      exists i :: 0 <= i < |chain| && chain[i] == PFind(chain, key, dev).value
        && forall j :: 0 <= j < i ==> !Answers(chain[j], key, dev)
  {
    if |chain| == 0 {
    } else if Answers(chain[0], key, dev) {
      assert chain[0] == PFind(chain, key, dev).value;
    } else {
      var tail := chain[1..];
      PFindFirst(tail, key, dev);
      var r := PFind(tail, key, dev);
      if r.Some? {
        var i :| 0 <= i < |tail| && tail[i] == r.value && forall j :: 0 <= j < i ==> !Answers(tail[j], key, dev);
        assert chain[i + 1] == r.value;
        forall j | 0 <= j < i + 1
          ensures !Answers(chain[j], key, dev)
        {
          if j > 0 { assert chain[j] == tail[j - 1]; }
        }
      }
    }
  }

  /** __pneigh_lookup_1: walk the chain until an entry answers. */
  method Lookup1(chain: seq<PEntry>, key: Key, dev: Option<Dev>) returns (r: Option<PEntry>)
    ensures r == PFind(chain, key, dev)
  {
    var j := 0;
    while j < |chain|
      invariant 0 <= j <= |chain|
      invariant PFind(chain, key, dev) == PFind(chain[j..], key, dev)
    {
      if chain[j].key == key && (chain[j].dev == dev || chain[j].dev.None?) {
        return Some(chain[j]);
      }
      assert chain[j..][1..] == chain[j + 1..];
      j := j + 1;
    }
    return None;
  }

  /** The position of the first entry for exactly (key, dev), if any. */
  function PIndex(chain: seq<PEntry>, key: Key, dev: Option<Dev>): (r: Option<nat>)
    ensures r.Some? ==> r.value < |chain| && chain[r.value] == PEntry(key, dev)
    ensures r.Some? ==> forall j :: 0 <= j < r.value ==> chain[j] != PEntry(key, dev)
    ensures r.None? <==> PEntry(key, dev) !in chain
  {
    if |chain| == 0 then None
    else if chain[0] == PEntry(key, dev) then Some(0)
    else
      var t := PIndex(chain[1..], key, dev);
      if t.Some? then Some(t.value + 1) else None
  }

  /** pneigh_delete on one chain: unlink the first entry for exactly
      (key, dev) (no wildcard here) and return 0, or return -ENOENT. */
  method DeleteFrom(chain: seq<PEntry>, key: Key, dev: Option<Dev>) returns (rest: seq<PEntry>, err: int)
    ensures PIndex(chain, key, dev).None? ==> rest == chain && err == -ENOENT
    ensures PIndex(chain, key, dev).Some? ==>
      var j := PIndex(chain, key, dev).value;
      err == 0 && rest == chain[..j] + chain[j + 1..]
  {
    var j := 0;
    while j < |chain|
      invariant 0 <= j <= |chain|
      invariant forall p :: 0 <= p < j ==> chain[p] != PEntry(key, dev)
    {
      if chain[j].key == key && chain[j].dev == dev {
        PIndexFirst(chain, key, dev, j);
        return chain[..j] + chain[j + 1..], 0;
      }
      j := j + 1;
    }
    return chain, -ENOENT;
  }

  lemma {:induction false} PIndexFirst(chain: seq<PEntry>, key: Key, dev: Option<Dev>, j: nat)
    requires j < |chain| && chain[j] == PEntry(key, dev)
    requires forall p :: 0 <= p < j ==> chain[p] != PEntry(key, dev)
    ensures PIndex(chain, key, dev) == Some(j)
  {
    if j > 0 {
      PIndexFirst(chain[1..], key, dev, j - 1);
    }
  }

  /** The entries pneigh_ifdown removes: every entry when no device is
      given, otherwise the entries bound to that device (wildcard entries stay). */
  predicate GoesDown(e: PEntry, dev: Option<Dev>) {
    dev.None? || e.dev == dev
  }

  /** The entries of a chain that survive pneigh_ifdown, in order. */
  function Survivors(chain: seq<PEntry>, dev: Option<Dev>): (r: seq<PEntry>)
    ensures forall e :: e in r <==> e in chain && !GoesDown(e, dev)
    ensures |r| <= |chain|
  {
    if |chain| == 0 then []
    else
      var t := Survivors(chain[..|chain| - 1], dev);
      var e := chain[|chain| - 1];
      assert chain == chain[..|chain| - 1] + [e];
      if GoesDown(e, dev) then t else t + [e]
  }

  /** pneigh_ifdown on one chain, by pointer-to-pointer walk. */
  method IfdownChain(chain: seq<PEntry>, dev: Option<Dev>) returns (rest: seq<PEntry>)
    ensures rest == Survivors(chain, dev)
  {
    rest := [];
    for j := 0 to |chain|
      invariant rest == Survivors(chain[..j], dev)
    {
      assert chain[..j + 1][..j] == chain[..j];
      if !(dev.None? || chain[j].dev == dev) {
        rest := rest + [chain[j]];
      }
    }
    assert chain[..|chain|] == chain;
  }

  /** pneigh_ifdown over every bucket, from 0 to PNEIGH_HASHMASK. */
  method IfdownAll(ph: seq<seq<PEntry>>, dev: Option<Dev>) returns (r: seq<seq<PEntry>>)
    ensures |r| == |ph| && forall i :: 0 <= i < |ph| ==> r[i] == Survivors(ph[i], dev)
  {
    r := ph;
    for i := 0 to |ph|
      invariant |r| == |ph|
      invariant forall k :: 0 <= k < i ==> r[k] == Survivors(ph[k], dev)
      invariant forall k :: i <= k < |ph| ==> r[k] == ph[k]
    {
      var rest := IfdownChain(r[i], dev);
      r := r[i := rest];
    }
  }

  // ---------------------------------------------------------------------
  // The proxy delay queue: pneigh_enqueue and neigh_proxy_process
  // ---------------------------------------------------------------------

  /** A delayed request: the packet, the device it came in on, and the
      time it is due (NEIGH_CB(skb)->sched_next). */
  datatype Delayed = Delayed(pkt: Packet, dev: Dev, due: int)

  /** The proxy timer is due no later than every queued request. */
  predicate TimerCovers(q: seq<Delayed>, timer: Option<int>) {
    q != [] ==> timer.Some? && forall j :: 0 <= j < |q| ==> timer.value <= q[j].due
  }

  datatype EnqueueResult = EnqueueResult(q: seq<Delayed>, timer: Option<int>, dropped: bool)

  /** pneigh_enqueue: a request is held for a random delay below
      proxy_delay, unless the queue already holds more than proxy_qlen
      requests, in which case it is dropped.  The timer is moved earlier if
      the new request is due first.  `rand` is the value of net_random(). */
  function ProxyEnqueue(q: seq<Delayed>, timer: Option<int>, p: Parms, pkt: Packet, dev: Dev, now: int, rand: nat)
    : (r: EnqueueResult)
    requires p.proxyDelay > 0
    ensures r.dropped <==> |q| > p.proxyQlen
    ensures r.dropped ==> r.q == q && r.timer == timer
    ensures !r.dropped ==> |r.q| == |q| + 1 && r.q[..|q|] == q
    ensures !r.dropped ==> r.q[|q|].pkt == pkt && r.q[|q|].dev == dev && now <= r.q[|q|].due < now + p.proxyDelay
    // the queue never holds more than proxy_qlen + 1 requests
    ensures |q| <= p.proxyQlen + 1 ==> |r.q| <= p.proxyQlen + 1
    ensures TimerCovers(q, timer) ==> TimerCovers(r.q, r.timer)
  {
    var due := now + rand % p.proxyDelay;
    if |q| > p.proxyQlen then EnqueueResult(q, timer, true)
    else
      var next := if timer.Some? && timer.value < due then timer.value else due;
      EnqueueResult(q + [Delayed(pkt, dev, due)], Some(next), false)
  }

  /** The requests still waiting at `now`, in order. */
  function Waiting(q: seq<Delayed>, now: int): (r: seq<Delayed>)
    ensures forall x :: x in r <==> x in q && x.due > now
  {
    if |q| == 0 then []
    else
      var t := Waiting(q[..|q| - 1], now);
      var x := q[|q| - 1];
      assert q == q[..|q| - 1] + [x];
      if x.due > now then t + [x] else t
  }

  /** The packets of the requests due at `now` that are handed to
      proxy_redo (when there is one and the device is running), in order. */
  function Redone(q: seq<Delayed>, now: int, redo: bool, running: Dev -> bool): (r: seq<Packet>)
    ensures forall k :: k in r ==> exists x :: x in q && x.pkt == k && x.due <= now && redo && running(x.dev)
  {
    if |q| == 0 then []
    else
      var t := Redone(q[..|q| - 1], now, redo, running);
      var x := q[|q| - 1];
      assert q == q[..|q| - 1] + [x];
      if x.due <= now && redo && running(x.dev) then t + [x.pkt] else t
  }

  /** The packets of the requests due at `now` that are freed instead. */
  function Discarded(q: seq<Delayed>, now: int, redo: bool, running: Dev -> bool): (r: seq<Packet>)
    ensures forall k :: k in r ==> exists x :: x in q && x.pkt == k && x.due <= now && !(redo && running(x.dev))
  {
    if |q| == 0 then []
    else
      var t := Discarded(q[..|q| - 1], now, redo, running);
      var x := q[|q| - 1];
      assert q == q[..|q| - 1] + [x];
      if x.due <= now && !(redo && running(x.dev)) then t + [x.pkt] else t
  }

  /** The earliest due time of a non-empty queue. */
  function Earliest(q: seq<Delayed>): int
    requires q != []
  {
    if |q| == 1 then q[0].due
    else
      var m := Earliest(q[..|q| - 1]);
      if q[|q| - 1].due < m then q[|q| - 1].due else m
  }

  /** Earliest is the minimum due time, and some request is due then. */
  lemma {:induction false} EarliestIsMin(q: seq<Delayed>)
    requires q != []
    ensures exists j :: 0 <= j < |q| && q[j].due == Earliest(q)
    ensures forall j :: 0 <= j < |q| ==> Earliest(q) <= q[j].due
  {
    if |q| == 1 {
      assert q[0].due == Earliest(q);
    } else {
      var p := q[..|q| - 1];
      EarliestIsMin(p);
      assert forall j :: 0 <= j < |p| ==> p[j] == q[j];
      var k :| 0 <= k < |p| && p[k].due == Earliest(p);
      if q[|q| - 1].due < Earliest(p) {
        assert q[|q| - 1].due == Earliest(q);
      } else {
        assert q[k].due == Earliest(q);
      }
    }
  }

  lemma EarliestSnoc(q: seq<Delayed>, x: Delayed)
    ensures Earliest(q + [x]) == if q == [] then x.due else if x.due < Earliest(q) then x.due else Earliest(q)
  {
    assert (q + [x])[..|q|] == q;
  }

  lemma QueueSnoc(q: seq<Delayed>, x: Delayed, now: int, redo: bool, running: Dev -> bool)
    ensures Waiting(q + [x], now) == Waiting(q, now) + (if x.due > now then [x] else [])
    ensures Redone(q + [x], now, redo, running) ==
      Redone(q, now, redo, running) + (if x.due <= now && redo && running(x.dev) then [x.pkt] else [])
    ensures Discarded(q + [x], now, redo, running) ==
      Discarded(q, now, redo, running) + (if x.due <= now && !(redo && running(x.dev)) then [x.pkt] else [])
  {
    assert (q + [x])[..|q|] == q;
  }

  /** Conversely, every due request is handed on: its packet is redone when
      there is a redo hook and its device is running, and freed otherwise. */
  lemma {:induction false} DueHandedOn(q: seq<Delayed>, now: int, redo: bool, running: Dev -> bool)
    ensures forall x :: x in q && x.due <= now && redo && running(x.dev) ==> x.pkt in Redone(q, now, redo, running)
    ensures forall x :: x in q && x.due <= now && !(redo && running(x.dev)) ==> x.pkt in Discarded(q, now, redo, running)
  {
    if |q| > 0 {
      var p, y := q[..|q| - 1], q[|q| - 1];
      assert q == p + [y];
      DueHandedOn(p, now, redo, running);
      QueueSnoc(p, y, now, redo, running);
    }
  }

  /** The packets of a queue, in order. */
  function Packets(q: seq<Delayed>): seq<Packet> {
    if |q| == 0 then [] else Packets(q[..|q| - 1]) + [q[|q| - 1].pkt]
  }

  lemma PacketsSnoc(q: seq<Delayed>, x: Delayed)
    ensures Packets(q + [x]) == Packets(q) + [x.pkt]
  {
    assert (q + [x])[..|q|] == q;
  }

  /** Adding one element to any of three multisets adds it to their union. */
  lemma UnionAddOne<T>(a: multiset<T>, b: multiset<T>, c: multiset<T>, k: T)
    ensures (a + multiset{k}) + b + c == a + b + c + multiset{k}
    ensures a + (b + multiset{k}) + c == a + b + c + multiset{k}
    ensures a + b + (c + multiset{k}) == a + b + c + multiset{k}
  {
  }

  lemma MultisetSnoc<T>(t: seq<T>, k: T)
    ensures multiset(t + [k]) == multiset(t) + multiset{k}
  {
  }

  /** Appending a request adds its packet to exactly one of the three parts. */
  lemma PartitionSnoc(q: seq<Delayed>, x: Delayed, now: int, redo: bool, running: Dev -> bool)
    ensures multiset(Packets(Waiting(q + [x], now))) + multiset(Redone(q + [x], now, redo, running))
              + multiset(Discarded(q + [x], now, redo, running))
         == multiset(Packets(Waiting(q, now))) + multiset(Redone(q, now, redo, running))
              + multiset(Discarded(q, now, redo, running)) + multiset{x.pkt}
  {
    QueueSnoc(q, x, now, redo, running);
    var w, rd, ds := Waiting(q, now), Redone(q, now, redo, running), Discarded(q, now, redo, running);
    UnionAddOne(multiset(Packets(w)), multiset(rd), multiset(ds), x.pkt);
    if x.due > now {
      PacketsSnoc(w, x);
      MultisetSnoc(Packets(w), x.pkt);
    } else if redo && running(x.dev) {
      MultisetSnoc(rd, x.pkt);
    } else {
      MultisetSnoc(ds, x.pkt);
    }
  }

  /** Every delayed request is exactly one of: still waiting, redone or
      freed; no packet is lost or handed on twice. */
  lemma {:induction false} ProxyPartition(q: seq<Delayed>, now: int, redo: bool, running: Dev -> bool)
    ensures multiset(Packets(q)) ==
      multiset(Packets(Waiting(q, now))) + multiset(Redone(q, now, redo, running)) + multiset(Discarded(q, now, redo, running))
  {
    if |q| > 0 {
      var p, x := q[..|q| - 1], q[|q| - 1];
      assert q == p + [x];
      ProxyPartition(p, now, redo, running);
      PartitionSnoc(p, x, now, redo, running);
      PacketsSnoc(p, x);
      MultisetSnoc(Packets(p), x.pkt);
    }
  }

  /** Every waiting request is due after `now`, so a timer for the earliest
      of them covers the queue. */
  lemma WaitingDue(q: seq<Delayed>, now: int)
    ensures forall j :: 0 <= j < |Waiting(q, now)| ==> now < Waiting(q, now)[j].due
    ensures Waiting(q, now) != [] ==> TimerCovers(Waiting(q, now), Some(Earliest(Waiting(q, now))))
  {
    var w := Waiting(q, now);
    forall j | 0 <= j < |w| ensures now < w[j].due {
      assert w[j] in w;
    }
    if w != [] {
      EarliestIsMin(w);
    }
  }

  /** neigh_proxy_process's sched_next: the distance from `now` to the
      earliest waiting request, 0 when none waits. */
  function Sched(rest: seq<Delayed>, now: int): int {
    if rest == [] then 0 else Earliest(rest) - now
  }

  /** The sched_next update of neigh_proxy_process keeps it the distance
      to the earliest waiting request. */
  lemma SchedNextStep(rest: seq<Delayed>, x: Delayed, now: int)
    requires forall y :: y in rest ==> now < y.due
    requires now < x.due
    ensures var s := Sched(rest, now);
      Sched(rest + [x], now) == if s == 0 || x.due - now < s then x.due - now else s
  {
    EarliestSnoc(rest, x);
    if rest != [] {
      EarliestIsMin(rest);
      var k :| 0 <= k < |rest| && rest[k].due == Earliest(rest);
      assert rest[k] in rest;
    }
  }

  /** The timer neigh_proxy_process re-arms from sched_next is the earliest
      waiting request's due time, and none when nothing waits. */
  lemma SchedTimer(rest: seq<Delayed>, now: int)
    requires forall y :: y in rest ==> now < y.due
    ensures rest == [] <==> Sched(rest, now) == 0
    ensures rest != [] ==> now + Sched(rest, now) == Earliest(rest)
  {
    if rest != [] {
      EarliestIsMin(rest);
      var k :| 0 <= k < |rest| && rest[k].due == Earliest(rest);
      assert rest[k] in rest;
    }
  }

  /** QueueSnoc on the prefixes of one queue. */
  lemma PrefixStep(q: seq<Delayed>, j: nat, now: int, redo: bool, running: Dev -> bool)
    requires j < |q|
    ensures Waiting(q[..j + 1], now) == Waiting(q[..j], now) + (if q[j].due > now then [q[j]] else [])
    ensures Redone(q[..j + 1], now, redo, running) ==
      Redone(q[..j], now, redo, running) + (if q[j].due <= now && redo && running(q[j].dev) then [q[j].pkt] else [])
    ensures Discarded(q[..j + 1], now, redo, running) ==
      Discarded(q[..j], now, redo, running) + (if q[j].due <= now && !(redo && running(q[j].dev)) then [q[j].pkt] else [])
  {
    PrefixSnoc(q, j);
    QueueSnoc(q[..j], q[j], now, redo, running);
  }

  datatype ProcessResult = ProcessResult(q: seq<Delayed>, timer: Option<int>, redone: seq<Packet>, freed: seq<Packet>)

  /** The loop of neigh_proxy_process: every request that is due is
      unlinked and handed to proxy_redo or freed, in order, and sched_next
      tracks the distance to the earliest request left waiting. */
  method ProxyWalk(q0: seq<Delayed>, now: int, redo: bool, running: Dev -> bool)
    returns (rest: seq<Delayed>, redone: seq<Packet>, freed: seq<Packet>, schedNext: int)
    ensures rest == Waiting(q0, now)
    ensures redone == Redone(q0, now, redo, running)
    ensures freed == Discarded(q0, now, redo, running)
    ensures schedNext == Sched(rest, now)
  {
    rest, redone, freed, schedNext := [], [], [], 0;
    for j := 0 to |q0|
      invariant rest == Waiting(q0[..j], now)
      invariant redone == Redone(q0[..j], now, redo, running)
      invariant freed == Discarded(q0[..j], now, redo, running)
      invariant schedNext == Sched(rest, now)
    {
      var x := q0[j];
      PrefixStep(q0, j, now, redo, running);
      var tdif := x.due - now;
      if tdif <= 0 {
        if redo && running(x.dev) {
          redone := redone + [x.pkt];
        } else {
          freed := freed + [x.pkt];
        }
      } else {
        SchedNextStep(rest, x, now);
        if schedNext == 0 || tdif < schedNext {
          schedNext := tdif;
        }
        rest := rest + [x];
      }
    }
    assert q0[..|q0|] == q0;
  }

  /** neigh_proxy_process: walk the queue, then re-arm the timer for the
      earliest request still waiting, or cancel it.  `redo` says whether the
      table has a proxy_redo hook, `running` is netif_running. */
  method ProxyProcess(q0: seq<Delayed>, now: int, redo: bool, running: Dev -> bool) returns (r: ProcessResult)
    ensures r.q == Waiting(q0, now)
    ensures r.redone == Redone(q0, now, redo, running)
    ensures r.freed == Discarded(q0, now, redo, running)
    ensures r.q == [] ==> r.timer.None?
    ensures r.q != [] ==> r.timer == Some(Earliest(r.q))
    ensures TimerCovers(r.q, r.timer)
    ensures forall j :: 0 <= j < |r.q| ==> now < r.q[j].due
  {
    var rest, redone, freed, schedNext := ProxyWalk(q0, now, redo, running);
    WaitingDue(q0, now);
    SchedTimer(rest, now);
    var timer := if schedNext != 0 then Some(now + schedNext) else None;
    r := ProcessResult(rest, timer, redone, freed);
  }
}
