/**
 * The receive side of ARP (net/ipv4/arp.c, arp_process): what an accepted
 * packet makes the host do.  The routing answers and the lookups arp_process
 * makes are an environment of parameters; `Process` is the decision, and the
 * cache update it asks for is `neigh_update` (NeighEntry.UpdateStep) with the
 * state and flags of `LearnState` and `LearnFlags`.
 */
module ArpRx {
  import opened Wrappers
  import opened Nud
  import opened NeighEntry
  import opened ArpWire
  import opened ArpNeigh

  /** The route ip_route_input finds for a request: its type and whether it
      leaves through the device the request came in on. */
  datatype Route = Route(rtType: nat, sameDev: bool)

  /** What arp_process learns from outside the packet. */
  datatype Env = Env(
    inDev: Option<InDev>,             // the device's IPv4 configuration
    addrType: Ip -> nat,              // inet_addr_type
    confirm: (Ip, Ip, Scope) -> bool, // inet_confirm_addr, for arp_ignore
    filterRefuses: bool,              // arp_filter(sip, tip, dev)
    route: Option<Route>,             // ip_route_input(skb, tip, sip, 0, dev), None when it fails
    fwdProxy: bool,                   // arp_fwd_proxy(in_dev, rt)
    proxied: bool,                    // pneigh_lookup(&arp_tbl, net, &tip, dev, 0) != NULL
    locallyEnqueued: bool,            // LOCALLY_ENQUEUED in the packet's control block
    pktType: PktType,                 // skb->pkt_type
    proxyDelay: nat,                  // in_dev->arp_parms->proxy_delay
    arpAccept: bool,                  // ARP_ACCEPT of the namespace
    known: bool)                      // __neigh_lookup(&arp_tbl, &sip, dev, 0) finds an entry

  /** What arp_process does with a packet. */
  datatype Action =
    | Discard                  // nothing
    | AnswerProbe              // reply to a duplicate address probe (sender 0.0.0.0)
    | AnswerLocal              // neigh_event_ns for the sender, then a reply if it gave an entry
    | AnswerProxy(queued: bool) // neigh_event_ns, then a reply now or after the proxy delay
    | Learn(create: bool)      // update the sender's entry, creating it when `create`

  /** The sender hardware address arp_process uses: the device's broadcast
      address on Frame Relay (DLCI) devices, the packet's sha otherwise. */
  function SenderAddr(f: Fields, d: NetDev): (sha: seq<byte>)
    requires DevOk(d) && |f.sha| == d.dev.addrLen
    ensures |sha| == d.dev.addrLen
  {
    if d.devType == ARPHRD_DLCI then d.broadcast[..d.dev.addrLen] else f.sha
  }

  /** The decision of arp_process for a packet that passed arp_rcv. */
  function Process(pkt: seq<byte>, d: NetDev, env: Env): Action
    requires |pkt| >= ArpHdrLen(d.dev.addrLen)
  {
    var h := ParseHdr(pkt);
    var f := Extract(pkt, d.dev.addrLen);
    if env.inDev.None? || !ProcessAccepts(pkt, d) then Discard
    else if f.sip == ANY then
      (if h.op == ARPOP_REQUEST && env.addrType(f.tip) == RTN_LOCAL
          && !IgnoresRequest(env.inDev.value.arpIgnore, f.sip, f.tip, env.confirm)
       then AnswerProbe else Discard)
    else if h.op == ARPOP_REQUEST && env.route.Some? && env.route.value.rtType == RTN_LOCAL then
      (if IgnoresRequest(env.inDev.value.arpIgnore, f.sip, f.tip, env.confirm)
          || (env.inDev.value.arpFilter && env.filterRefuses)
       then Discard else AnswerLocal)
    else if h.op == ARPOP_REQUEST && env.route.Some? && env.inDev.value.forwarding
            && env.route.value.rtType == RTN_UNICAST && !env.route.value.sameDev
            && (env.fwdProxy || env.proxied) then
      AnswerProxy(!(env.locallyEnqueued || env.pktType == PACKET_HOST || env.proxyDelay == 0))
    else
      var create := !env.known && env.arpAccept && h.op == ARPOP_REPLY && env.addrType(f.sip) == RTN_UNICAST;
      if env.known || create then Learn(create) else Discard
  }

  /** Nothing happens without an IPv4 configuration or for a packet whose
      header arp_process refuses; only requests are answered; a probe from
      0.0.0.0 never touches the cache. */
  lemma ProcessGuards(pkt: seq<byte>, d: NetDev, env: Env)
    requires |pkt| >= ArpHdrLen(d.dev.addrLen)
    ensures env.inDev.None? || !ProcessAccepts(pkt, d) ==> Process(pkt, d, env) == Discard
    ensures Process(pkt, d, env) != Discard ==> env.inDev.Some? && ProcessAccepts(pkt, d)
    ensures var a := Process(pkt, d, env);
      a.AnswerProbe? || a.AnswerLocal? || a.AnswerProxy? ==> ParseHdr(pkt).op == ARPOP_REQUEST
    ensures Extract(pkt, d.dev.addrLen).sip == ANY ==>
      Process(pkt, d, env) == Discard || Process(pkt, d, env) == AnswerProbe
    ensures Process(pkt, d, env).AnswerProbe? ==> Extract(pkt, d.dev.addrLen).sip == ANY
  {
  }

  /** Unsolicited ARP: a new entry is created only for a reply from a
      unicast sender when arp_accept is on; a reply from an unknown sender
      is otherwise ignored, and one from a known sender always learned. */
  lemma ProcessCreates(pkt: seq<byte>, d: NetDev, env: Env)
    requires |pkt| >= ArpHdrLen(d.dev.addrLen)
    ensures Process(pkt, d, env) == Learn(true) ==>
      && env.arpAccept && ParseHdr(pkt).op == ARPOP_REPLY && !env.known
      && env.addrType(Extract(pkt, d.dev.addrLen).sip) == RTN_UNICAST
    ensures Process(pkt, d, env).Learn? ==> Extract(pkt, d.dev.addrLen).sip != ANY
    ensures
      var f := Extract(pkt, d.dev.addrLen);
      env.inDev.Some? && ProcessAccepts(pkt, d) && ParseHdr(pkt).op == ARPOP_REPLY && f.sip != ANY ==>
        (Process(pkt, d, env).Learn? <==> env.known || (env.arpAccept && env.addrType(f.sip) == RTN_UNICAST))
  {
  }

  /** A request for a local address is answered unless arp_ignore or
      arp_filter refuse it; a proxied request is answered at once when it
      was addressed to this host, was queued before, or the proxy delay is
      zero, and queued otherwise. */
  lemma ProcessAnswers(pkt: seq<byte>, d: NetDev, env: Env)
    requires |pkt| >= ArpHdrLen(d.dev.addrLen)
    requires env.inDev.Some? && ProcessAccepts(pkt, d)
    requires ParseHdr(pkt).op == ARPOP_REQUEST && Extract(pkt, d.dev.addrLen).sip != ANY
    requires env.route.Some?
    ensures var f := Extract(pkt, d.dev.addrLen);
      env.route.value.rtType == RTN_LOCAL ==>
        (Process(pkt, d, env) == AnswerLocal <==>
          !IgnoresRequest(env.inDev.value.arpIgnore, f.sip, f.tip, env.confirm) && !(env.inDev.value.arpFilter && env.filterRefuses))
    ensures Process(pkt, d, env).AnswerProxy? ==>
      && env.inDev.value.forwarding && env.route.value.rtType == RTN_UNICAST && !env.route.value.sameDev
      && (Process(pkt, d, env).queued <==> !env.locallyEnqueued && env.pktType != PACKET_HOST && env.proxyDelay > 0)
  {
  }

  /** The reply arp_process sends: from the device, to the requester's
      hardware address, claiming `tip` for the device. */
  function ReplyFrame(f: Fields, d: NetDev): Frame
    requires DevOk(d) && |f.sha| == d.dev.addrLen
  {
    var sha := SenderAddr(f, d);
    CreatedFrame(ARPOP_REPLY as int, ETH_P_ARP as int, f.sip, d, f.tip, Some(sha), Some(d.devAddr), Some(sha))
  }

  /** The reply answers the request: read by the requester (a device of the
      same type), it is a reply whose sender is this device at the asked-for
      address and whose target is the requester. */
  lemma ReplyAnswersRequest(pkt: seq<byte>, d: NetDev, e: NetDev, pt: PktType)
    requires DevOk(d) && DevOk(e) && |pkt| >= ArpHdrLen(d.dev.addrLen)
    requires e.devType == d.devType && e.dev.addrLen == d.dev.addrLen && !e.noarp
    requires pt != PACKET_OTHERHOST && pt != PACKET_LOOPBACK
    requires d.devType != ARPHRD_DLCI
    requires var f := Extract(pkt, d.dev.addrLen); !IsLoopback(f.sip) && !IsMulticast(f.sip)
    ensures var f := Extract(pkt, d.dev.addrLen);
      var reply := ReplyFrame(f, d).arp;
      && RcvAccepts(reply, e, pt) && ProcessAccepts(reply, e)
      && ParseHdr(reply).op == ARPOP_REPLY
      && Extract(reply, e.dev.addrLen) == Fields(d.devAddr[..d.dev.addrLen], f.tip, f.sip)
      && ReplyFrame(f, d).linkDst == f.sha
  {
    var f := Extract(pkt, d.dev.addrLen);
    CreatedIsAccepted(d, e, ARPOP_REPLY as int, f.tip, f.sip, Some(d.devAddr), Some(f.sha), pt);
  }

  // -------------------------------------------------------------------------
  // The cache update
  // -------------------------------------------------------------------------

  /** The state arp_process asks for: REACHABLE only for a reply addressed
      to this host; broadcast replies and requests only make the entry STALE. */
  function LearnState(op: u16, pt: PktType): (s: State)
    ensures s == REACHABLE <==> op == ARPOP_REPLY && pt == PACKET_HOST
    ensures s != REACHABLE ==> s == STALE
  {
    if op != ARPOP_REPLY || pt != PACKET_HOST then STALE else REACHABLE
  }

  /** The flags arp_process passes: OVERRIDE once the entry's address has
      been stable for locktime, so that the first of several replies wins. */
  function LearnFlags(n: Neigh, p: Parms, now: int): (fl: UpdateFlags)
    ensures fl.override <==> now > n.updated + p.locktime
    ensures !fl.admin && !fl.weakOverride && !fl.overrideIsRouter
  {
    UpdateFlags(now > n.updated + p.locktime, false, false, false, false)
  }

  /** neigh_update(n, sha, state, override) as arp_process issues it. */
  function LearnStep(n: Neigh, p: Parms, sha: seq<byte>, op: u16, pt: PktType, now: int): UpdateResult
    requires n.dev.addrLen <= |n.ha| && |sha| >= n.dev.addrLen
  {
    UpdateStep(n, p, Some(sha), LearnState(op, pt), LearnFlags(n, p, now), now)
  }

  /** ARP traffic never changes a static entry: a PERMANENT or NOARP entry
      refuses the update with -EPERM and stays as it is. */
  lemma LearnSparesStatic(n: Neigh, p: Parms, sha: seq<byte>, op: u16, pt: PktType, now: int)
    requires n.dev.addrLen <= |n.ha| && |sha| >= n.dev.addrLen
    requires n.nudState == PERMANENT || n.nudState == NOARP
    ensures LearnStep(n, p, sha, op, pt, now) == UpdateResult(n, -EPERM, false, [], [])
  {
  }

  /** An unresolved entry takes the sender's address and becomes REACHABLE
      on a reply to this host (STALE otherwise), sending what waited for it. */
  lemma LearnResolves(n: Neigh, p: Parms, sha: seq<byte>, op: u16, pt: PktType, now: int)
    requires n.dev.addrLen <= |n.ha| && |sha| >= n.dev.addrLen
    requires !IsValid(n.nudState) && n.nudState != NOARP && n.nudState != PERMANENT
    ensures var r := LearnStep(n, p, sha, op, pt, now);
      && r.err == 0
      && r.n.nudState == (if op == ARPOP_REPLY && pt == PACKET_HOST then REACHABLE else STALE)
      && r.n.ha[..n.dev.addrLen] == sha[..n.dev.addrLen]
      && r.sent == n.arpQueue && r.n.arpQueue == []
  {
    var s := LearnState(op, pt);
    var fl := LearnFlags(n, p, now);
    UpdateResolves(n, p, Some(sha), s, fl, now);
    UpdateAddress(n, p, Some(sha), s, fl, now);
  }

  /** Within locktime of its last update a valid entry keeps its address,
      whatever a later reply says. */
  lemma LearnKeepsFirstReply(n: Neigh, p: Parms, sha: seq<byte>, op: u16, pt: PktType, now: int)
    requires n.dev.addrLen <= |n.ha| && |sha| >= n.dev.addrLen
    requires IsValid(n.nudState) && now <= n.updated + p.locktime
    ensures LearnStep(n, p, sha, op, pt, now).n.ha == n.ha
  {
    UpdateAddress(n, p, Some(sha), LearnState(op, pt), LearnFlags(n, p, now), now);
  }
}
