/**
 * One neighbour entry (struct neighbour) and its reachability state machine
 * (net/core/neighbour.c): the send path, the per-entry timer, the
 * administrative and protocol updates, and invalidation.
 *
 * Each transition is given twice: a specification function whose contract
 * states the rules the kernel promises (the `...Step` functions), and a
 * method that performs the same field assignments one after another, in the
 * order of the C code, proved equal to it.  Both are kept on purpose: the
 * functions are what the table's invariant lemmas and the ARP model reason
 * about (a lemma cannot call a method), while the methods follow neighbour.c
 * statement by statement, so that each can be read against the C code and
 * each function is known to describe what that code does.  Jiffies are an integer `now`;
 * `time_before_eq(a, b)` is `a <= b` and `time_before(a, b)` is `a < b`.
 */
module NeighEntry {
  import opened Wrappers
  import opened Nud

  newtype byte = x: int | 0 <= x < 256

  /** The primary key bytes of an entry (an IPv4 address for ARP). */
  type Key = seq<byte>
  /** Identity of an allocated entry: plays the role of the `struct neighbour *`. */
  type Id = nat
  /** Identity of a parameter block: plays the role of the `struct neigh_parms *`. */
  type ParmsId = nat

  /** Ticks per second (CONFIG_HZ; a configuration constant of the kernel). */
  const HZ: nat := 250
  /** Size of the `ha` array: MAX_ADDR_LEN rounded up to a multiple of `long`. */
  const MAX_ADDR_LEN: nat := 32

  const EPERM: int := 1
  const ENOENT: int := 2
  const ENXIO: int := 6
  const EINVAL: int := 22
  const ENOBUFS: int := 105

  /** A network device, identified by its interface index; `addrLen` is `dev->addr_len`. */
  datatype Dev = Dev(ifindex: nat, addrLen: nat)

  /** A queued socket buffer; only its identity matters to the cache. */
  datatype Packet = Packet(id: nat)

  /** Which function `neigh->output` points to: the black hole installed at
      allocation, or one of the three slots of `neigh->ops`. */
  datatype OutputFn = Blackhole | OpsOutput | OpsConnectedOutput | OpsQueueXmit

  /** Which `struct neigh_ops` the entry uses (`NoOps` until a constructor ran). */
  datatype NeighOps = NoOps | GenericOps | HhOps | DirectOps | BrokenOps

  /** struct neigh_parms.  `holders` counts the references held by others
      than entries (the table, a device); the references held by entries are
      counted from the table, so the kernel's `refcnt` is their sum. */
  datatype Parms = Parms(
    ifindex: Option<nat>,
    dead: bool,
    holders: int,
    baseReachableTime: nat,
    retransTime: nat,
    gcStaletime: nat,
    reachableTime: nat,
    delayProbeTime: nat,
    queueLen: nat,
    ucastProbes: nat,
    appProbes: nat,
    mcastProbes: nat,
    anycastDelay: nat,
    proxyDelay: nat,
    proxyQlen: nat,
    locktime: nat)

  /** struct neighbour.  `timer` is the expiry of the pending timer, if any;
      `isRouter` is NTF_ROUTER in `flags`; `ntype` is the address type set
      by the protocol constructor. */
  datatype Neigh = Neigh(
    key: Key,
    dev: Dev,
    parms: ParmsId,
    ntype: nat,
    isRouter: bool,
    nudState: State,
    dead: bool,
    probes: int,
    used: int,
    confirmed: int,
    updated: int,
    ha: seq<byte>,
    arpQueue: seq<Packet>,
    refcnt: int,
    timer: Option<int>,
    output: OutputFn,
    ops: NeighOps)

  function Max(a: int, b: int): int {
    if a < b then b else a
  }

  function Head(q: seq<Packet>): Option<Packet> {
    if |q| > 0 then Some(q[0]) else None
  }

  /** The references an entry must hold: one for being linked in the table
      (a linked entry is exactly one that is not dead) and one for a pending timer. */
  function OwnRefs(n: Neigh): int {
    (if n.dead then 0 else 1) + (if n.timer.Some? then 1 else 0)
  }

  /** The reference-count discipline of a single entry: a pending timer holds a
      reference and only runs in a timer state; the cached address fits `ha`. */
  predicate EntryOk(n: Neigh) {
    && n.refcnt >= 1
    && n.refcnt >= OwnRefs(n)
    && (n.timer.Some? ==> InTimer(n.nudState))
    && |n.ha| == MAX_ADDR_LEN
    && n.dev.addrLen <= MAX_ADDR_LEN
  }

  /** The caller holds a reference of its own ("Caller MUST hold reference count on the entry"). */
  predicate CallerHolds(n: Neigh) {
    EntryOk(n) && n.refcnt >= OwnRefs(n) + 1
  }

  /** The fields that identify an entry and its table membership are untouched. */
  predicate SameIdentity(a: Neigh, b: Neigh) {
    a.key == b.key && a.dev == b.dev && a.parms == b.parms && a.dead == b.dead
  }

  /** neigh_add_timer: the pending timer takes a reference. */
  function AddTimer(n: Neigh, when: int): Neigh {
    n.(timer := Some(when), refcnt := n.refcnt + 1)
  }

  /** neigh_del_timer: cancelling a pending timer of a timer state drops its reference. */
  function DelTimer(n: Neigh): Neigh {
    if InTimer(n.nudState) && n.timer.Some? then n.(timer := None, refcnt := n.refcnt - 1) else n
  }

  /** neigh_max_probes: the probe budget of the current state. */
  function MaxProbes(s: State, p: Parms): nat {
    if s == PROBE then p.ucastProbes else p.ucastProbes + p.appProbes + p.mcastProbes
  }

  /** neigh_rand_reach_time: a reachable time drawn from [base/2, 3*base/2). */
  function RandReachTime(base: nat, rand: nat): (r: nat)
    ensures base == 0 ==> r == 0
    ensures base > 0 ==> base / 2 <= r < base / 2 + base
  {
    if base != 0 then rand % base + base / 2 else 0
  }

  // ---------------------------------------------------------------------
  // __neigh_event_send
  // ---------------------------------------------------------------------

  /** Outcome of the send path: the entry, the return code (1: the packet was
      taken, queued or dropped; 0: send it now) and the packets freed. */
  datatype SendResult = SendResult(n: Neigh, rc: int, dropped: seq<Packet>)

  /** Queue a packet behind an unresolved entry's queue; when the queue
      already holds queue_len packets, the oldest one is dropped. Returns the
      new queue and the dropped packets. */
  function Enqueue(q: seq<Packet>, limit: nat, pkt: Packet): (r: (seq<Packet>, seq<Packet>))
    ensures r.1 + r.0 == q + [pkt]
    ensures |r.0| > 0 && r.0[|r.0| - 1] == pkt
    ensures |r.1| <= 1 && (r.1 != [] <==> |q| >= limit && |q| > 0)
    ensures |q| <= Max(limit, 1) ==> |r.0| <= Max(limit, 1)
  {
    if |q| >= limit && |q| > 0 then (q[1..] + [pkt], [q[0]]) else (q + [pkt], [])
  }

  /** __neigh_event_send: start resolution of an unresolved entry and queue
      the packet while it is INCOMPLETE. */
  function EventSendStep(n: Neigh, p: Parms, skb: Option<Packet>, now: int): SendResult
  {
    if (IsConnected(n.nudState) || n.nudState == DELAY || n.nudState == PROBE) then
      SendResult(n, 0, [])
    else if !(n.nudState == STALE || n.nudState == INCOMPLETE) && p.mcastProbes + p.appProbes == 0 then
      SendResult(n.(nudState := FAILED, updated := now), 1, if skb.Some? then [skb.value] else [])
    else
      Queued(Started(n, p, now), p, skb)
  }

  /** The state change of __neigh_event_send that keeps the entry usable:
      NONE or FAILED starts resolution in INCOMPLETE, STALE waits in DELAY. */
  function Started(n: Neigh, p: Parms, now: int): Neigh {
    if !(n.nudState == STALE || n.nudState == INCOMPLETE) then
      AddTimer(n.(probes := p.ucastProbes, nudState := INCOMPLETE, updated := now), now + 1)
    else if n.nudState == STALE then
      AddTimer(n.(nudState := DELAY, updated := now), now + p.delayProbeTime)
    else n
  }

  /** The end of __neigh_event_send: an INCOMPLETE entry keeps the packet. */
  function Queued(n: Neigh, p: Parms, skb: Option<Packet>): SendResult {
    if n.nudState != INCOMPLETE then SendResult(n, 0, [])
    else if skb.None? then SendResult(n, 1, [])
    else
      var e := Enqueue(n.arpQueue, p.queueLen, skb.value);
      SendResult(n.(arpQueue := e.0), 1, e.1)
  }

  /** The state changes __neigh_event_send promises: a resolved entry sends
      at once, an unresolved one starts resolution or fails, a STALE one is
      delayed. */
  lemma EventSendStates(n: Neigh, p: Parms, skb: Option<Packet>, now: int)
    ensures var r := EventSendStep(n, p, skb, now);
      (IsConnected(n.nudState) || n.nudState == DELAY || n.nudState == PROBE) ==> r == SendResult(n, 0, [])
    ensures var r := EventSendStep(n, p, skb, now);
      (n.nudState == NONE || n.nudState == FAILED) && p.mcastProbes + p.appProbes > 0 ==>
        && r.n.nudState == INCOMPLETE && r.n.probes == p.ucastProbes && r.n.updated == now
        && r.n.timer == Some(now + 1) && r.rc == 1
    ensures var r := EventSendStep(n, p, skb, now);
      (n.nudState == NONE || n.nudState == FAILED) && p.mcastProbes + p.appProbes == 0 ==>
        r == SendResult(n.(nudState := FAILED, updated := now), 1, if skb.Some? then [skb.value] else [])
    ensures var r := EventSendStep(n, p, skb, now);
      n.nudState == STALE ==>
        r == SendResult(n.(nudState := DELAY, updated := now, timer := Some(now + p.delayProbeTime), refcnt := n.refcnt + 1), 0, [])
  {
    if IsConnected(n.nudState) || n.nudState == DELAY || n.nudState == PROBE {
    } else if !(n.nudState == STALE || n.nudState == INCOMPLETE) && p.mcastProbes + p.appProbes == 0 {
    } else {
      var n1 := Started(n, p, now);
      assert n.nudState == STALE ==> n1.nudState == DELAY;
    }
  }

  /** Every packet handed to __neigh_event_send is either queued behind the
      old queue or freed, and the queue holds at most queue_len packets (one
      when queue_len is 0). */
  lemma EventSendQueue(n: Neigh, p: Parms, skb: Option<Packet>, now: int)
    ensures var r := EventSendStep(n, p, skb, now);
      r.rc == 1 && r.n.nudState == INCOMPLETE && skb.Some? ==>
        r.dropped + r.n.arpQueue == n.arpQueue + [skb.value]
    ensures var r := EventSendStep(n, p, skb, now);
      r.rc == 0 ==> r.dropped == [] && r.n.arpQueue == n.arpQueue
    ensures var r := EventSendStep(n, p, skb, now);
      |n.arpQueue| <= Max(p.queueLen, 1) ==> |r.n.arpQueue| <= Max(p.queueLen, 1)
  {
    if IsConnected(n.nudState) || n.nudState == DELAY || n.nudState == PROBE {
    } else if !(n.nudState == STALE || n.nudState == INCOMPLETE) && p.mcastProbes + p.appProbes == 0 {
    } else {
      assert Started(n, p, now).arpQueue == n.arpQueue;
    }
  }

  /** __neigh_event_send keeps the entry's identity and its well-formedness. */
  lemma EventSendOk(n: Neigh, p: Parms, skb: Option<Packet>, now: int)
    ensures var r := EventSendStep(n, p, skb, now);
      SameIdentity(n, r.n)
    ensures var r := EventSendStep(n, p, skb, now);
      EntryOk(n) ==> EntryOk(r.n)
  {
    if IsConnected(n.nudState) || n.nudState == DELAY || n.nudState == PROBE {
    } else if !(n.nudState == STALE || n.nudState == INCOMPLETE) && p.mcastProbes + p.appProbes == 0 {
    } else {
      var n1 := Started(n, p, now);
      assert SameIdentity(n, n1);
      assert EntryOk(n) ==> EntryOk(n1);
    }
  }

  /** __neigh_event_send, statement by statement. */
  method EventSendSlow(n0: Neigh, p: Parms, skb: Option<Packet>, now: int) returns (r: SendResult)
    ensures r == EventSendStep(n0, p, skb, now)
  {
    var n := n0;
    var rc := 0;
    var dropped: seq<Packet> := [];
    if (IsConnected(n.nudState) || n.nudState == DELAY || n.nudState == PROBE) {
      return SendResult(n, rc, dropped);
    }
    if !(n.nudState == STALE || n.nudState == INCOMPLETE) {
      if p.mcastProbes + p.appProbes != 0 {
        n := AddTimer(n.(probes := p.ucastProbes, nudState := INCOMPLETE, updated := now), now + 1);
      } else {
        n := n.(nudState := FAILED, updated := now);
        if skb.Some? {
          dropped := [skb.value];
        }
        return SendResult(n, 1, dropped);
      }
    } else if n.nudState == STALE {
      n := AddTimer(n.(nudState := DELAY, updated := now), now + p.delayProbeTime);
    }
    assert n == Started(n0, p, now);
    ghost var n1 := n;
    if n.nudState == INCOMPLETE {
      if skb.Some? {
        var q := n.arpQueue;
        if |q| >= p.queueLen {
          if |q| > 0 {
            dropped := [q[0]];
            q := q[1..];
          }
        }
        q := q + [skb.value];
        assert (q, dropped) == Enqueue(n.arpQueue, p.queueLen, skb.value);
        n := n.(arpQueue := q);
      }
      rc := 1;
    }
    r := SendResult(n, rc, dropped);
    assert r == Queued(n1, p, skb);
  }

  // ---------------------------------------------------------------------
  // neigh_invalidate
  // ---------------------------------------------------------------------

  /** neigh_invalidate: hand every queued packet, oldest first, to the
      error_report callback while the entry is FAILED, then purge the queue. */
  method Invalidate(n0: Neigh, now: int) returns (n: Neigh, reported: seq<Packet>)
    ensures n == n0.(updated := now, arpQueue := [])
    ensures reported == if n0.nudState == FAILED then n0.arpQueue else []
  {
    n := n0.(updated := now);
    reported := [];
    while n.nudState == FAILED && |n.arpQueue| > 0
      invariant n == n0.(updated := now, arpQueue := n.arpQueue)
      invariant reported + n.arpQueue == n0.arpQueue
      invariant n0.nudState != FAILED ==> reported == []
      decreases |n.arpQueue|
    {
      reported := reported + [n.arpQueue[0]];
      n := n.(arpQueue := n.arpQueue[1..]);
    }
    n := n.(arpQueue := []);
  }

  // ---------------------------------------------------------------------
  // neigh_timer_handler
  // ---------------------------------------------------------------------

  /** Outcome of a timer expiry: the entry, whether listeners are notified,
      the solicitation sent (with a copy of the oldest queued packet, if any)
      and the packets reported unreachable. */
  datatype TimerResult = TimerResult(n: Neigh, notify: bool, solicit: Option<Option<Packet>>, reported: seq<Packet>)

  /** The first part of neigh_timer_handler: the REACHABLE and DELAY timeouts,
      with the next expiry and whether listeners are notified. */
  function Timeout(n: Neigh, p: Parms, now: int): (r: (Neigh, int, bool))
    requires InTimer(n.nudState)
    ensures SameIdentity(n, r.0) && r.0.timer == n.timer && r.0.refcnt == n.refcnt && r.0.arpQueue == n.arpQueue
    ensures r.0.ha == n.ha
    ensures n.nudState == REACHABLE && now <= n.confirmed + p.reachableTime ==>
      r == (n, n.confirmed + p.reachableTime, false)
    ensures n.nudState == REACHABLE && n.confirmed + p.reachableTime < now <= n.used + p.delayProbeTime ==>
      r == (n.(nudState := DELAY, updated := now, output := OpsOutput), now + p.delayProbeTime, false)
    ensures n.nudState == REACHABLE && now > n.confirmed + p.reachableTime && now > n.used + p.delayProbeTime ==>
      r.0 == n.(nudState := STALE, updated := now, output := OpsOutput) && r.2
    ensures n.nudState == DELAY && now <= n.confirmed + p.delayProbeTime ==>
      r == (n.(nudState := REACHABLE, updated := now, output := OpsConnectedOutput), n.confirmed + p.reachableTime, true)
    ensures n.nudState == DELAY && now > n.confirmed + p.delayProbeTime ==>
      r == (n.(nudState := PROBE, updated := now, probes := 0), now + p.retransTime, false)
    ensures (n.nudState == INCOMPLETE || n.nudState == PROBE) ==> r == (n, now + p.retransTime, false)
  {
    if n.nudState == REACHABLE then
      if now <= n.confirmed + p.reachableTime then
        (n, n.confirmed + p.reachableTime, false)
      else if now <= n.used + p.delayProbeTime then
        (n.(nudState := DELAY, updated := now, output := OpsOutput), now + p.delayProbeTime, false)
      else
        (n.(nudState := STALE, updated := now, output := OpsOutput), now + HZ, true)
    else if n.nudState == DELAY then
      if now <= n.confirmed + p.delayProbeTime then
        (n.(nudState := REACHABLE, updated := now, output := OpsConnectedOutput), n.confirmed + p.reachableTime, true)
      else
        (n.(nudState := PROBE, updated := now, probes := 0), now + p.retransTime, false)
    else
      (n, now + p.retransTime, false)
  }

  /** The second part of neigh_timer_handler: give up a resolution whose probe
      budget is spent, re-arm the timer, and solicit again. */
  function Reprobe(n: Neigh, next: int, notify: bool, p: Parms, now: int): (r: TimerResult)
    requires n.timer.None?
    ensures SameIdentity(n, r.n) && r.n.ha == n.ha
    ensures (n.nudState == INCOMPLETE || n.nudState == PROBE) && n.probes >= MaxProbes(n.nudState, p) ==>
      && r.n == n.(nudState := FAILED, updated := now, arpQueue := [])
      && r.reported == n.arpQueue && r.solicit.None? && r.notify
    ensures (n.nudState == INCOMPLETE || n.nudState == PROBE) && n.probes < MaxProbes(n.nudState, p) ==>
      && r.n == AddTimer(n, Max(next, now + HZ / 2)).(probes := n.probes + 1)
      && r.solicit == Some(Head(n.arpQueue)) && r.reported == [] && r.notify == notify
    ensures !(n.nudState == INCOMPLETE || n.nudState == PROBE) ==>
      r == TimerResult(if InTimer(n.nudState) then AddTimer(n, Max(next, now + HZ / 2)) else n, notify, None, [])
    // the timer is never re-armed sooner than half a second from now
    ensures r.n.timer.Some? ==> r.n.timer.value >= now + HZ / 2 && InTimer(r.n.nudState)
    ensures r.n.refcnt == n.refcnt + (if r.n.timer.Some? then 1 else 0)
  {
    var failing := (n.nudState == INCOMPLETE || n.nudState == PROBE) && n.probes >= MaxProbes(n.nudState, p);
    var n2 := if failing then n.(nudState := FAILED, updated := now, arpQueue := []) else n;
    var reported := if failing then n.arpQueue else [];
    var n3 := if InTimer(n2.nudState) then AddTimer(n2, Max(next, now + HZ / 2)) else n2;
    if (n3.nudState == INCOMPLETE || n3.nudState == PROBE) then
      TimerResult(n3.(probes := n3.probes + 1), notify || failing, Some(Head(n3.arpQueue)), reported)
    else
      TimerResult(n3, notify || failing, None, reported)
  }

  /** neigh_timer_handler, for an entry whose timer has just fired (so it is
      no longer pending; the handler owns the timer's reference). */
  function TimerStep(n: Neigh, p: Parms, now: int): (r: TimerResult)
    requires n.timer.None?
    ensures SameIdentity(n, r.n) && r.n.ha == n.ha
    ensures !InTimer(n.nudState) ==> r == TimerResult(n, false, None, [])
    // an unanswered INCOMPLETE or PROBE entry probes again until its budget is spent
    ensures (n.nudState == INCOMPLETE || n.nudState == PROBE) ==>
      if n.probes >= MaxProbes(n.nudState, p) then
        && r.n.nudState == FAILED && r.n.timer.None? && r.n.arpQueue == []
        && r.reported == n.arpQueue && r.solicit.None? && r.notify
      else
        && r.n.nudState == n.nudState && r.n.probes == n.probes + 1
        && r.solicit == Some(Head(n.arpQueue)) && r.n.arpQueue == n.arpQueue
        && r.n.timer == Some(Max(now + p.retransTime, now + HZ / 2))
    // the timer is never re-armed sooner than half a second from now
    ensures r.n.timer.Some? ==> r.n.timer.value >= now + HZ / 2 && InTimer(r.n.nudState)
    ensures r.n.refcnt == n.refcnt + (if r.n.timer.Some? then 1 else 0)
  {
    if !InTimer(n.nudState) then
      TimerResult(n, false, None, [])
    else
      var (n1, next, notify) := Timeout(n, p, now);
      Reprobe(n1, next, notify, p, now)
  }

  /** The REACHABLE and DELAY timeouts of neigh_timer_handler, with the
      re-arm delay in force. */
  lemma TimerTimeouts(n: Neigh, p: Parms, now: int)
    requires n.timer.None?
    ensures var r := TimerStep(n, p, now);
      n.nudState == REACHABLE && now <= n.confirmed + p.reachableTime ==>
        r == TimerResult(AddTimer(n, Max(n.confirmed + p.reachableTime, now + HZ / 2)), false, None, [])
    ensures var r := TimerStep(n, p, now);
      n.nudState == REACHABLE && n.confirmed + p.reachableTime < now <= n.used + p.delayProbeTime ==>
        && r.n.nudState == DELAY && r.n.updated == now && r.n.output == OpsOutput
        && r.n.timer == Some(Max(now + p.delayProbeTime, now + HZ / 2))
    ensures var r := TimerStep(n, p, now);
      n.nudState == REACHABLE && now > n.confirmed + p.reachableTime && now > n.used + p.delayProbeTime ==>
        r.n == n.(nudState := STALE, updated := now, output := OpsOutput) && r.notify
    ensures var r := TimerStep(n, p, now);
      n.nudState == DELAY && now <= n.confirmed + p.delayProbeTime ==>
        && r.n.nudState == REACHABLE && r.n.output == OpsConnectedOutput && r.notify
        && r.n.timer == Some(Max(n.confirmed + p.reachableTime, now + HZ / 2))
    ensures var r := TimerStep(n, p, now);
      n.nudState == DELAY && now > n.confirmed + p.delayProbeTime ==>
        if p.ucastProbes == 0 then r.n.nudState == FAILED && r.reported == n.arpQueue
        else r.n.nudState == PROBE && r.n.probes == 1 && r.solicit == Some(Head(n.arpQueue))
  {
  }

  /** The timeouts of neigh_timer_handler, statement by statement. */
  method Expire(n0: Neigh, p: Parms, now: int) returns (n: Neigh, next: int, notify: bool)
    requires InTimer(n0.nudState)
    ensures (n, next, notify) == Timeout(n0, p, now)
  {
    n := n0;
    next := now + HZ;
    notify := false;
    if n.nudState == REACHABLE {
      if now <= n.confirmed + p.reachableTime {
        next := n.confirmed + p.reachableTime;
      } else if now <= n.used + p.delayProbeTime {
        n := n.(nudState := DELAY);
        n := n.(updated := now);
        n := n.(output := OpsOutput);
        next := now + p.delayProbeTime;
      } else {
        n := n.(nudState := STALE);
        n := n.(updated := now);
        n := n.(output := OpsOutput);
        notify := true;
      }
    } else if n.nudState == DELAY {
      if now <= n.confirmed + p.delayProbeTime {
        n := n.(nudState := REACHABLE);
        n := n.(updated := now);
        n := n.(output := OpsConnectedOutput);
        notify := true;
        next := n.confirmed + p.reachableTime;
      } else {
        n := n.(nudState := PROBE);
        n := n.(updated := now);
        n := n.(probes := 0);
        next := now + p.retransTime;
      }
    } else {
      next := now + p.retransTime;
    }
  }

  /** The end of neigh_timer_handler, statement by statement: fail, re-arm, solicit. */
  method Rearm(n0: Neigh, next0: int, notify0: bool, p: Parms, now: int) returns (r: TimerResult)
    requires n0.timer.None?
    ensures r == Reprobe(n0, next0, notify0, p, now)
  {
    var n := n0;
    var next := next0;
    var notify := notify0;
    var reported: seq<Packet> := [];
    if (n.nudState == INCOMPLETE || n.nudState == PROBE) && n.probes >= MaxProbes(n.nudState, p) {
      n := n.(nudState := FAILED);
      notify := true;
      n, reported := Invalidate(n, now);
    }
    if InTimer(n.nudState) {
      if next < now + HZ / 2 {
        next := now + HZ / 2;
      }
      n := AddTimer(n, next);
    }
    var solicit: Option<Option<Packet>> := None;
    if (n.nudState == INCOMPLETE || n.nudState == PROBE) {
      solicit := Some(Head(n.arpQueue));
      n := n.(probes := n.probes + 1);
    }
    r := TimerResult(n, notify, solicit, reported);
  }

  /** neigh_timer_handler (without the final neigh_release, which belongs to
      the table). */
  method TimerHandler(n0: Neigh, p: Parms, now: int) returns (r: TimerResult)
    requires n0.timer.None?
    ensures r == TimerStep(n0, p, now)
  {
    if !InTimer(n0.nudState) {
      return TimerResult(n0, false, None, []);
    }
    var n, next, notify := Expire(n0, p, now);
    r := Rearm(n, next, notify, p, now);
  }

  // ---------------------------------------------------------------------
  // neigh_update
  // ---------------------------------------------------------------------

  /** Outcome of neigh_update: the entry, the return code, whether listeners
      are notified, the packets reported unreachable and the packets sent
      through the entry's output once it became valid. */
  datatype UpdateResult = UpdateResult(n: Neigh, err: int, notify: bool, reported: seq<Packet>, sent: seq<Packet>)

  /** neigh_suspect / neigh_connect: the output that matches a state. */
  function OutputFor(s: State): OutputFn {
    if IsConnected(s) then OpsConnectedOutput else OpsOutput
  }

  /** Restart the timer for a new state: immediately, or after reachable_time for REACHABLE. */
  function StartTimer(n: Neigh, s: State, p: Parms, now: int): Neigh {
    if InTimer(s) then AddTimer(n, now + (if s == REACHABLE then p.reachableTime else 0)) else n
  }

  /** The update is admitted: ADMIN, or the entry is not NOARP/PERMANENT. */
  predicate Admitted(n: Neigh, flags: UpdateFlags) {
    flags.admin || !(n.nudState == NOARP || n.nudState == PERMANENT)
  }

  /** The supplied address equals the cached address of a valid entry. */
  predicate SameAddress(n: Neigh, lladdr: seq<byte>)
    requires n.dev.addrLen <= |n.ha| && n.dev.addrLen <= |lladdr|
  {
    IsValid(n.nudState) && lladdr[..n.dev.addrLen] == n.ha[..n.dev.addrLen]
  }

  /** How neigh_update treats a request before it looks at the override flags. */
  datatype Gate =
    | Refused(err: int)      // -EPERM or -EINVAL, nothing changes
    | Invalidating           // the new state is not valid
    | Proceed(keep: bool)    // keep: the cached address stays (lladdr == neigh->ha)

  /** The first checks of neigh_update: permission, an invalid new state, and
      the choice between the supplied and the cached address. */
  function UpdateGate(n: Neigh, lladdr: Option<seq<byte>>, ns: State, flags: UpdateFlags): (g: Gate)
    requires n.dev.addrLen <= |n.ha|
    requires lladdr.Some? ==> |lladdr.value| >= n.dev.addrLen
    // rule 1: only an administrative update may touch a NOARP or PERMANENT entry
    ensures g == Refused(-EPERM) <==> !Admitted(n, flags)
    // rule 2: without an address, an entry that knows none refuses a valid state
    ensures g == Refused(-EINVAL) <==>
      Admitted(n, flags) && IsValid(ns) && n.dev.addrLen != 0 && lladdr.None? && !IsValid(n.nudState)
    ensures g.Invalidating? <==> Admitted(n, flags) && !IsValid(ns)
    // the cached address is kept when there is none to compare, none supplied, or the same one
    ensures g.Proceed? ==>
      (g.keep <==> n.dev.addrLen == 0 || lladdr.None? || SameAddress(n, lladdr.value))
  {
    if !Admitted(n, flags) then Refused(-EPERM)
    else if !IsValid(ns) then Invalidating
    else if n.dev.addrLen != 0 && lladdr.None? && !IsValid(n.nudState) then Refused(-EINVAL)
    else Proceed(n.dev.addrLen == 0 || lladdr.None? || SameAddress(n, lladdr.value))
  }

  /** What an admitted update to a valid state does. */
  datatype Decision =
    | Ignore                                               // only the timestamps move
    | Apply(state: State, adopt: bool, setRouter: bool)    // go to `state`; adopt the supplied address

  /** The override rules of neigh_update for an entry in state `prev`. */
  function Decide(prev: State, keep: bool, ns: State, flags: UpdateFlags): (d: Decision)
    // rule 3: a different address on a valid entry needs OVERRIDE; WEAK_OVERRIDE on a
    // connected entry only drops it to STALE and keeps the old address
    ensures IsValid(prev) && !keep && !flags.override ==>
      d == (if flags.weakOverride && IsConnected(prev) then Apply(STALE, false, false) else Ignore)
    // rule 4: a STALE request that brings no new address keeps a valid entry's state
    ensures IsValid(prev) && keep && ns == STALE && (flags.weakOverride || IsConnected(prev)) ==>
      d == Apply(prev, false, flags.overrideIsRouter)
    // otherwise the requested state is taken, with the supplied address if it differs,
    // and OVERRIDE_ISROUTER decides whether is_router is rewritten
    ensures !IsValid(prev) || flags.override || keep ==>
      d == Apply(if IsValid(prev) && keep && ns == STALE && (flags.weakOverride || IsConnected(prev)) then prev else ns,
                 !keep, flags.overrideIsRouter)
    // in particular a valid entry that is not connected, with the same address, takes a STALE request
    ensures IsValid(prev) && !IsConnected(prev) && keep && ns == STALE && !flags.weakOverride ==>
      d == Apply(STALE, false, flags.overrideIsRouter)
  {
    var weak := IsValid(prev) && !keep && !flags.override;
    if weak && !(flags.weakOverride && IsConnected(prev)) then Ignore
    else if weak then Apply(STALE, false, false)
    else if IsValid(prev) && keep && ns == STALE && (flags.weakOverride || IsConnected(prev)) then
      Apply(prev, false, flags.overrideIsRouter)
    else Apply(ns, !keep, flags.overrideIsRouter)
  }

  /** The state change of neigh_update: a new state restarts the timer
      (immediately, or after reachable_time for REACHABLE). */
  function Restate(n: Neigh, prev: State, s: State, p: Parms, now: int): (r: Neigh)
    ensures SameIdentity(n, r) && r.nudState == s
    ensures r.ha == n.ha && r.arpQueue == n.arpQueue && r.confirmed == n.confirmed && r.output == n.output
    ensures r.isRouter == n.isRouter
    ensures s == prev ==> r == n.(nudState := s)
    ensures s != prev && InTimer(s) ==>
      r.timer == Some(now + (if s == REACHABLE then p.reachableTime else 0)) && r.refcnt == DelTimer(n).refcnt + 1
    ensures s != prev && !InTimer(s) ==> r.timer == DelTimer(n).timer && r.refcnt == DelTimer(n).refcnt
  {
    if s != prev then StartTimer(DelTimer(n), s, p, now).(nudState := s) else n.(nudState := s)
  }

  /** Take over a new link-layer address; an entry that is not connected
      loses its confirmation, so that it is soon probed. */
  function Adopt(n: Neigh, s: State, lladdr: seq<byte>, p: Parms, now: int): (r: Neigh)
    requires n.dev.addrLen <= |lladdr| && n.dev.addrLen <= |n.ha|
    ensures |r.ha| == |n.ha|
    ensures r.ha[..n.dev.addrLen] == lladdr[..n.dev.addrLen] && r.ha[n.dev.addrLen..] == n.ha[n.dev.addrLen..]
    ensures !IsConnected(s) ==> r.confirmed < now || p.baseReachableTime == 0
  {
    n.(ha := lladdr[..n.dev.addrLen] + n.ha[n.dev.addrLen..],
       confirmed := if IsConnected(s) then n.confirmed else now - 2 * p.baseReachableTime)
  }

  /** neigh_connect or neigh_suspect for the new state, and the flush of the
      queue of an entry that was not valid before. */
  function Reconnect(n: Neigh, prev: State, s: State): (r: (Neigh, seq<Packet>))
    ensures r.0.output == OutputFor(s) && r.0.nudState == n.nudState
    ensures r.1 + r.0.arpQueue == n.arpQueue
    ensures !IsValid(prev) ==> r.0.arpQueue == []
    ensures IsValid(prev) ==> r.1 == []
  {
    if !IsValid(prev) then (n.(output := OutputFor(s), arpQueue := []), n.arpQueue)
    else (n.(output := OutputFor(s)), [])
  }

  /** neigh_update after the decision: restart the timer for a new state,
      copy an adopted address, pick the output, and flush the queue of an
      entry that just became valid. */
  function ApplyUpdate(n: Neigh, prev: State, d: Decision, lladdr: Option<seq<byte>>, flags: UpdateFlags, p: Parms, now: int)
    : (r: UpdateResult)
    requires d.Apply? && IsValid(d.state)
    requires d.adopt ==> lladdr.Some? && n.dev.addrLen <= |lladdr.value| && n.dev.addrLen <= |n.ha|
    requires n.nudState == prev
    ensures SameIdentity(n, r.n) && |r.n.ha| == |n.ha| && r.err == 0 && r.reported == []
    ensures r.n.nudState == d.state && r.notify == d.adopt
    ensures r.n.timer == Restate(n, prev, d.state, p, now).timer && r.n.refcnt == Restate(n, prev, d.state, p, now).refcnt
    ensures !d.adopt ==> r.n.ha == n.ha
    ensures d.adopt ==> r.n.ha == lladdr.value[..n.dev.addrLen] + n.ha[n.dev.addrLen..]
    ensures d.state != prev ==> r.n.output == OutputFor(d.state)
    ensures d.state != prev && !IsValid(prev) ==> r.sent == n.arpQueue && r.n.arpQueue == []
    ensures d.state == prev || IsValid(prev) ==> r.sent == [] && r.n.arpQueue == n.arpQueue
  {
    var n2 := Restate(n, prev, d.state, p, now);
    var n3 := if d.adopt then Adopt(n2, d.state, lladdr.value, p, now) else n2;
    var rc := if d.state == prev then (n3, []) else Reconnect(n3, prev, d.state);
    UpdateResult(if d.setRouter then rc.0.(isRouter := flags.isRouter) else rc.0, 0, d.adopt, [], rc.1)
  }

  /** neigh_update to a state that is not valid: stop the timer, suspect a
      connected entry, and fail the queue of an entry whose resolution failed. */
  function Demote(n: Neigh, ns: State, now: int): (r: UpdateResult)
    requires !IsValid(ns)
    ensures SameIdentity(n, r.n) && r.n.nudState == ns && r.err == 0 && r.sent == []
    ensures CallerHolds(n) ==> r.n.timer.None? && CallerHolds(r.n)
    ensures r.n.ha == n.ha && r.n.confirmed == n.confirmed
    ensures r.notify <==> IsValid(n.nudState) || ((n.nudState == INCOMPLETE || n.nudState == PROBE) && ns == FAILED)
    ensures (n.nudState == INCOMPLETE || n.nudState == PROBE) && ns == FAILED ==>
      r.reported == n.arpQueue && r.n.arpQueue == []
    ensures !((n.nudState == INCOMPLETE || n.nudState == PROBE) && ns == FAILED) ==>
      r.reported == [] && r.n.arpQueue == n.arpQueue
  {
    var prev := n.nudState;
    var n1 := DelTimer(n);
    var n2 := (if IsConnected(prev) then n1.(output := OpsOutput) else n1).(nudState := ns);
    if (prev == INCOMPLETE || prev == PROBE) && ns == FAILED then
      UpdateResult(n2.(updated := now, arpQueue := []), 0, true, n2.arpQueue, [])
    else
      UpdateResult(n2, 0, IsValid(prev), [], [])
  }

  /** neigh_update: change the state and possibly the address of an entry. */
  function UpdateStep(n: Neigh, p: Parms, lladdr: Option<seq<byte>>, ns: State, flags: UpdateFlags, now: int): (r: UpdateResult)
    requires n.dev.addrLen <= |n.ha|
    requires lladdr.Some? ==> |lladdr.value| >= n.dev.addrLen
    ensures SameIdentity(n, r.n) && |r.n.ha| == |n.ha|
    ensures r.err == -EPERM <==> !Admitted(n, flags)
    ensures r.err == -EINVAL <==>
      Admitted(n, flags) && IsValid(ns) && n.dev.addrLen != 0 && lladdr.None? && !IsValid(n.nudState)
    ensures r.err != 0 ==> r == UpdateResult(n, r.err, false, [], [])
  {
    var prev := n.nudState;
    match UpdateGate(n, lladdr, ns, flags)
    case Refused(err) => UpdateResult(n, err, false, [], [])
    case Invalidating => Demote(n, ns, now)
    case Proceed(keep) => Proceeding(n, keep, p, lladdr, ns, flags, now)
  }

  /** neigh_update of an admitted request for a valid state: stamp the entry,
      apply the override rules, then the decision. */
  function Proceeding(n: Neigh, keep: bool, p: Parms, lladdr: Option<seq<byte>>, ns: State, flags: UpdateFlags, now: int)
    : (r: UpdateResult)
    requires IsValid(ns)
    requires !keep ==> lladdr.Some? && n.dev.addrLen <= |lladdr.value| && n.dev.addrLen <= |n.ha|
    ensures CallerHolds(n) ==> CallerHolds(r.n)
  {
    var n1 := (if IsConnected(ns) then n.(confirmed := now) else n).(updated := now);
    var d := Decide(n.nudState, keep, ns, flags);
    if d.Ignore? then UpdateResult(n1, 0, false, [], [])
    else ApplyUpdate(n1, n.nudState, d, lladdr, flags, p, now)
  }

  /** An entry that held no valid address takes the requested state and,
      once valid, sends what waited in its queue. */
  lemma UpdateResolves(n: Neigh, p: Parms, lladdr: Option<seq<byte>>, ns: State, flags: UpdateFlags, now: int)
    requires n.dev.addrLen <= |n.ha|
    requires lladdr.Some? ==> |lladdr.value| >= n.dev.addrLen
    requires !IsValid(n.nudState)
    ensures var r := UpdateStep(n, p, lladdr, ns, flags, now);
      r.err == 0 ==> r.n.nudState == ns && (IsValid(ns) ==> r.sent == n.arpQueue && r.n.arpQueue == [])
  {
  }

  /** A supplied address is taken by an entry without one, or under OVERRIDE;
      without OVERRIDE a valid entry never changes its address. */
  lemma UpdateAddress(n: Neigh, p: Parms, lladdr: Option<seq<byte>>, ns: State, flags: UpdateFlags, now: int)
    requires n.dev.addrLen <= |n.ha|
    requires lladdr.Some? ==> |lladdr.value| >= n.dev.addrLen
    requires IsValid(ns)
    ensures var r := UpdateStep(n, p, lladdr, ns, flags, now);
      r.err == 0 && lladdr.Some? && (!IsValid(n.nudState) || flags.override) ==>
        r.n.ha[..n.dev.addrLen] == lladdr.value[..n.dev.addrLen]
    ensures IsValid(n.nudState) && !flags.override ==> UpdateStep(n, p, lladdr, ns, flags, now).n.ha == n.ha
  {
  }

  /** neigh_update keeps the reference count consistent with the timer. */
  lemma UpdateKeepsRefs(n: Neigh, p: Parms, lladdr: Option<seq<byte>>, ns: State, flags: UpdateFlags, now: int)
    requires n.dev.addrLen <= |n.ha|
    requires lladdr.Some? ==> |lladdr.value| >= n.dev.addrLen
    requires CallerHolds(n)
    ensures CallerHolds(UpdateStep(n, p, lladdr, ns, flags, now).n)
  {
    match UpdateGate(n, lladdr, ns, flags)
    case Refused(_) =>
    case Invalidating =>
    case Proceed(keep) =>
  }

  /** The flush loop of neigh_update: while the entry is valid, every queued
      packet goes out through the entry's output, oldest first. */
  method Drain(n0: Neigh) returns (n: Neigh, sent: seq<Packet>)
    requires IsValid(n0.nudState)
    ensures n == n0.(arpQueue := []) && sent == n0.arpQueue
  {
    n := n0;
    sent := [];
    while IsValid(n.nudState) && |n.arpQueue| > 0
      invariant n == n0.(arpQueue := n.arpQueue)
      invariant sent + n.arpQueue == n0.arpQueue
      decreases |n.arpQueue|
    {
      sent := sent + [n.arpQueue[0]];
      n := n.(arpQueue := n.arpQueue[1..]);
    }
    n := n.(arpQueue := []);
  }

  /** neigh_update to a state that is not valid, statement by statement. */
  method DemoteEntry(n0: Neigh, ns: State, now: int) returns (r: UpdateResult)
    requires !IsValid(ns)
    ensures r == Demote(n0, ns, now)
  {
    var prev := n0.nudState;
    var n := DelTimer(n0);
    if IsConnected(prev) {
      n := n.(output := OpsOutput);
    }
    n := n.(nudState := ns);
    var notify := IsValid(prev);
    var reported: seq<Packet> := [];
    if (prev == INCOMPLETE || prev == PROBE) && ns == FAILED {
      n, reported := Invalidate(n, now);
      notify := true;
    }
    r := UpdateResult(n, 0, notify, reported, []);
  }

  /** The state change of neigh_update, statement by statement. */
  method Restart(n1: Neigh, prev: State, ns: State, p: Parms, now: int) returns (n: Neigh)
    requires n1.nudState == prev
    ensures n == Restate(n1, prev, ns, p, now)
  {
    n := n1;
    if ns != prev {
      n := DelTimer(n);
      if InTimer(ns) {
        n := AddTimer(n, now + (if ns == REACHABLE then p.reachableTime else 0));
      }
      n := n.(nudState := ns);
    }
  }

  /** The override rules of neigh_update, statement by statement: `goto out`
      becomes Ignore. */
  method Override(prev: State, keep0: bool, ns0: State, flags: UpdateFlags) returns (d: Decision)
    ensures d == Decide(prev, keep0, ns0, flags)
  {
    var keep := keep0;
    var ns := ns0;
    var updateIsRouter := flags.overrideIsRouter;
    if IsValid(prev) {
      if !keep && !flags.override {
        updateIsRouter := false;
        if flags.weakOverride && IsConnected(prev) {
          keep := true;
          ns := STALE;
        } else {
          return Ignore;
        }
      } else if keep && ns == STALE && (flags.weakOverride || IsConnected(prev)) {
        ns := prev;
      }
    }
    d := Apply(ns, !keep, updateIsRouter);
  }

  /** The second half of neigh_update, statement by statement: restart the
      timer, copy the address, reconnect and flush the queue. */
  method Commit(n1: Neigh, prev: State, ns: State, keep: bool, updateIsRouter: bool,
                lladdr: Option<seq<byte>>, flags: UpdateFlags, p: Parms, now: int)
    returns (r: UpdateResult)
    requires IsValid(ns) && n1.nudState == prev
    requires !keep ==> lladdr.Some? && n1.dev.addrLen <= |lladdr.value| && n1.dev.addrLen <= |n1.ha|
    ensures r == ApplyUpdate(n1, prev, Apply(ns, !keep, updateIsRouter), lladdr, flags, p, now)
  {
    var n := n1;
    var notify := false;
    var sent: seq<Packet> := [];
    var len := n.dev.addrLen;
    n := Restart(n, prev, ns, p, now);
    ghost var n2 := n;
    if !keep {
      n := n.(ha := lladdr.value[..len] + n.ha[len..]);
      if !IsConnected(ns) {
        n := n.(confirmed := now - 2 * p.baseReachableTime);
      }
      notify := true;
    }
    ghost var n3 := n;
    assert n3 == if keep then n2 else Adopt(n2, ns, lladdr.value, p, now);
    if ns != prev {
      n := n.(output := OutputFor(ns));
      if !IsValid(prev) {
        n, sent := Drain(n);
      }
    }
    ghost var rc := if ns == prev then (n3, []) else Reconnect(n3, prev, ns);
    assert n == rc.0 && sent == rc.1;
    if updateIsRouter {
      n := n.(isRouter := flags.isRouter);
    }
    r := UpdateResult(n, 0, notify, [], sent);
  }

  /** neigh_update past its checks, statement by statement. */
  method ProceedEntry(n0: Neigh, keep: bool, p: Parms, lladdr: Option<seq<byte>>, ns: State, flags: UpdateFlags, now: int)
    returns (r: UpdateResult)
    requires IsValid(ns)
    requires !keep ==> lladdr.Some? && n0.dev.addrLen <= |lladdr.value| && n0.dev.addrLen <= |n0.ha|
    ensures r == Proceeding(n0, keep, p, lladdr, ns, flags, now)
  {
    var n := n0;
    if IsConnected(ns) {
      n := n.(confirmed := now);
    }
    n := n.(updated := now);
    var d := Override(n0.nudState, keep, ns, flags);
    if d.Ignore? {
      r := UpdateResult(n, 0, false, [], []);
    } else {
      r := Commit(n, n0.nudState, d.state, !d.adopt, d.setRouter, lladdr, flags, p, now);
    }
  }

  /** The checks at the head of neigh_update, statement by statement. */
  method Gatekeep(n: Neigh, lladdr: Option<seq<byte>>, ns: State, flags: UpdateFlags) returns (g: Gate)
    requires n.dev.addrLen <= |n.ha|
    requires lladdr.Some? ==> |lladdr.value| >= n.dev.addrLen
    ensures g == UpdateGate(n, lladdr, ns, flags)
  {
    var prev := n.nudState;
    var len := n.dev.addrLen;
    if !flags.admin && (prev == NOARP || prev == PERMANENT) {
      return Refused(-EPERM);
    }
    if !IsValid(ns) {
      return Invalidating;
    }
    // keep: lladdr points at the cached address neigh->ha
    var keep: bool;
    if len == 0 {
      keep := true;
    } else if lladdr.Some? {
      keep := IsValid(prev) && lladdr.value[..len] == n.ha[..len];
    } else {
      if !IsValid(prev) {
        return Refused(-EINVAL);
      }
      keep := true;
    }
    g := Proceed(keep);
  }

  /** neigh_update; each `goto out` returns after the router flag is settled. */
  method Update(n0: Neigh, p: Parms, lladdr: Option<seq<byte>>, ns: State, flags: UpdateFlags, now: int)
    returns (r: UpdateResult)
    requires n0.dev.addrLen <= |n0.ha|
    requires lladdr.Some? ==> |lladdr.value| >= n0.dev.addrLen
    ensures r == UpdateStep(n0, p, lladdr, ns, flags, now)
  {
    var g := Gatekeep(n0, lladdr, ns, flags);
    match g
    case Refused(err) =>
      r := UpdateResult(n0, err, false, [], []);
    case Invalidating =>
      r := DemoteEntry(n0, ns, now);
    case Proceed(keep) =>
      r := ProceedEntry(n0, keep, p, lladdr, ns, flags, now);
  }
}
