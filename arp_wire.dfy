/**
 * The ARP packet as net/ipv4/arp.c writes and reads it (the packet format of
 * section "Packet format" of RFC 826): a fixed eight-byte header
 * (hardware type, protocol type, address lengths, opcode; 16-bit fields in
 * network byte order) followed by sender hardware address, sender IPv4
 * address, target hardware address and target IPv4 address.
 *
 * arp_create fills the buffer through an advancing pointer, so it is a method
 * over an array, proved to produce `Encode` of its inputs; arp_process reads
 * the fields back at fixed offsets (`Extract`), and `ExtractEncode` is the
 * round trip.  The header tests of arp_rcv and arp_process are predicates, and
 * `CreatedIsAccepted` shows that what arp_create sends on a device passes them
 * on a device of the same type.
 */
module ArpWire {
  import opened Wrappers
  import opened NeighEntry

  newtype u16 = x: int | 0 <= x < 0x1_0000

  /** An IPv4 address as the four bytes of a `__be32`, most significant first. */
  type Ip = s: seq<byte> | |s| == 4 witness [0, 0, 0, 0]

  // Hardware types (ARPHRD_*), protocol types and opcodes.
  const ARPHRD_NETROM: u16 := 0
  const ARPHRD_ETHER: u16 := 1
  const ARPHRD_AX25: u16 := 3
  const ARPHRD_IEEE802: u16 := 6
  const ARPHRD_DLCI: u16 := 15
  const ARPHRD_ROSE: u16 := 270
  const ARPHRD_FDDI: u16 := 774
  const ARPHRD_IEEE802_TR: u16 := 800
  const ETH_P_IP: u16 := 0x0800
  const ETH_P_ARP: u16 := 0x0806
  const AX25_P_IP: u16 := 0xCC
  const ARPOP_REQUEST: u16 := 1
  const ARPOP_REPLY: u16 := 2

  /** The size of struct arphdr, the fixed part in front of the addresses. */
  const ARPHDR_LEN: nat := 8

  /** skb->pkt_type: how the frame was addressed at the link layer. */
  datatype PktType = PACKET_HOST | PACKET_BROADCAST | PACKET_MULTICAST | PACKET_OTHERHOST | PACKET_OUTGOING | PACKET_LOOPBACK

  /** What ARP reads of a struct net_device. */
  datatype NetDev = NetDev(
    dev: Dev,              // ifindex and addr_len
    devType: u16,          // dev->type, an ARPHRD_* value
    noarp: bool,           // IFF_NOARP
    loopback: bool,        // IFF_LOOPBACK
    pointToPoint: bool,    // IFF_POINTOPOINT
    headerOps: bool,       // dev->header_ops != NULL
    headerCache: bool,     // dev->header_ops->cache != NULL
    devAddr: seq<byte>,    // dev->dev_addr
    broadcast: seq<byte>)  // dev->broadcast

  /** The addresses of a device hold at least addr_len bytes, and addr_len
      fits the `ha` array of an entry. */
  predicate DevOk(d: NetDev) {
    d.dev.addrLen <= MAX_ADDR_LEN && |d.devAddr| >= d.dev.addrLen && |d.broadcast| >= d.dev.addrLen
  }

  /** arp_hdr_len: the header plus two hardware and two IPv4 addresses. */
  function ArpHdrLen(addrLen: nat): nat {
    ARPHDR_LEN + 2 * (addrLen + 4)
  }

  /** struct arphdr with its fields in host order. */
  datatype ArpHdr = ArpHdr(hrd: u16, pro: u16, hln: byte, pln: byte, op: u16)

  /** htons: a 16-bit value as two bytes in network order. */
  function Be16(v: u16): (b: seq<byte>)
    ensures |b| == 2 && b[0] as int * 256 + b[1] as int == v as int
  {
    [(v as int / 256) as byte, (v as int % 256) as byte]
  }

  /** ntohs of the two bytes at `i`. */
  function ReadBe16(b: seq<byte>, i: nat): u16
    requires i + 2 <= |b|
  {
    (b[i] as int * 256 + b[i + 1] as int) as u16
  }

  /** The header as it lies in the packet. */
  function HdrBytes(h: ArpHdr): (b: seq<byte>)
    ensures |b| == ARPHDR_LEN
  {
    Be16(h.hrd) + Be16(h.pro) + [h.hln, h.pln] + Be16(h.op)
  }

  /** The whole ARP packet: header, sha, sip, tha, tip. */
  function Encode(h: ArpHdr, sha: seq<byte>, sip: Ip, tha: seq<byte>, tip: Ip): seq<byte> {
    HdrBytes(h) + sha + sip + tha + tip
  }

  /** The header fields read back from a packet. */
  function ParseHdr(pkt: seq<byte>): ArpHdr
    requires |pkt| >= ARPHDR_LEN
  {
    ArpHdr(ReadBe16(pkt, 0), ReadBe16(pkt, 2), pkt[4], pkt[5], ReadBe16(pkt, 6))
  }

  /** The addresses arp_process takes from the body (sha, sip, tip); the
      target hardware address is skipped. */
  datatype Fields = Fields(sha: seq<byte>, sip: Ip, tip: Ip)

  /** arp_process's field extraction with the device's addr_len: sha at body
      offset 0, sip at addr_len, tip at 2 * addr_len + 4. */
  function Extract(pkt: seq<byte>, addrLen: nat): (f: Fields)
    requires |pkt| >= ArpHdrLen(addrLen)
    ensures |f.sha| == addrLen
  {
    var body := pkt[ARPHDR_LEN..];
    Fields(body[..addrLen], body[addrLen..addrLen + 4], body[2 * addrLen + 4..2 * addrLen + 8])
  }

  /** Decoding an encoded packet gives back its header and the addresses
      arp_process uses. */
  lemma ExtractEncode(h: ArpHdr, sha: seq<byte>, sip: Ip, tha: seq<byte>, tip: Ip)
    requires |sha| == |tha|
    ensures |Encode(h, sha, sip, tha, tip)| == ArpHdrLen(|sha|)
    ensures ParseHdr(Encode(h, sha, sip, tha, tip)) == h
    ensures Extract(Encode(h, sha, sip, tha, tip), |sha|) == Fields(sha, sip, tip)
  {
    var pkt := Encode(h, sha, sip, tha, tip);
    var n := |sha|;
    assert pkt[..ARPHDR_LEN] == HdrBytes(h);
    assert pkt[ARPHDR_LEN..] == sha + sip + tha + tip;
    var body := sha + sip + tha + tip;
    assert body[..n] == sha;
    assert body[n..n + 4] == sip;
    assert body[2 * n + 4..2 * n + 8] == tip;
    assert pkt[4] == h.hln && pkt[5] == h.pln;
  }

  /** The hardware and protocol types arp_create writes for a device type:
      AX.25 and NET/ROM carry the AX.25 PID, FDDI announces Ethernet, token
      ring announces IEEE 802, every other device its own type with IPv4. */
  function HwTypes(devType: u16): (u16, u16) {
    if devType == ARPHRD_AX25 then (ARPHRD_AX25, AX25_P_IP)
    else if devType == ARPHRD_NETROM then (ARPHRD_NETROM, AX25_P_IP)
    else if devType == ARPHRD_FDDI then (ARPHRD_ETHER, ETH_P_IP)
    else if devType == ARPHRD_IEEE802_TR then (ARPHRD_IEEE802, ETH_P_IP)
    else (devType, ETH_P_IP)
  }

  /** The header arp_create writes: `ar_op = htons(type)` keeps the low 16 bits. */
  function CreatedHdr(d: NetDev, op: int): ArpHdr
    requires DevOk(d)
  {
    var t := HwTypes(d.devType);
    ArpHdr(t.0, t.1, d.dev.addrLen as byte, 4, (op % 0x1_0000) as u16)
  }

  /** A frame handed to the device: the link-layer protocol, destination and
      source given to dev_hard_header, and the ARP packet. */
  datatype Frame = Frame(ptype: int, linkDst: seq<byte>, linkSrc: seq<byte>, arp: seq<byte>)

  /** arp_create's choices of addresses: a missing source hardware address is
      the device's, a missing link destination the broadcast address, and a
      missing target hardware address is all zeroes. */
  function SenderHw(d: NetDev, srcHw: Option<seq<byte>>): seq<byte>
    requires DevOk(d) && (srcHw.Some? ==> |srcHw.value| >= d.dev.addrLen)
  {
    (if srcHw.Some? then srcHw.value else d.devAddr)[..d.dev.addrLen]
  }

  function TargetHw(d: NetDev, targetHw: Option<seq<byte>>): seq<byte>
    requires DevOk(d) && (targetHw.Some? ==> |targetHw.value| >= d.dev.addrLen)
  {
    if targetHw.Some? then targetHw.value[..d.dev.addrLen] else seq(d.dev.addrLen, _ => 0)
  }

  /** Copy the first `n` bytes of `src` to `buf[at..at + n]` (memcpy). */
  method Put(buf: array<byte>, at: nat, src: seq<byte>, n: nat)
    requires n <= |src| && at + n <= buf.Length
    modifies buf
    ensures buf[..at + n] == old(buf[..at]) + src[..n]
  {
    var i := 0;
    while i < n
      invariant 0 <= i <= n
      invariant buf[..at + i] == old(buf[..at]) + src[..i]
    {
      buf[at + i] := src[i];
      assert buf[..at + i + 1] == buf[..at + i] + [src[i]];
      assert src[..i + 1] == src[..i] + [src[i]];
      i := i + 1;
    }
  }

  /** The body of arp_create after allocation: the header, then the four
      addresses through an advancing pointer, `n` bytes for each hardware
      address. */
  method Fill(buf: array<byte>, h: ArpHdr, sha: seq<byte>, sip: Ip, tha: seq<byte>, tip: Ip, n: nat)
    requires n <= |sha| && n <= |tha| && buf.Length == ArpHdrLen(n)
    modifies buf
    ensures buf[..] == Encode(h, sha[..n], sip, tha[..n], tip)
  {
    Put(buf, 0, HdrBytes(h), ARPHDR_LEN);
    assert buf[..ARPHDR_LEN] == HdrBytes(h);
    var p := ARPHDR_LEN;
    Put(buf, p, sha, n);
    p := p + n;
    Put(buf, p, sip, 4);
    p := p + 4;
    assert sip[..4] == sip;
    Put(buf, p, tha, n);
    p := p + n;
    Put(buf, p, tip, 4);
    assert tip[..4] == tip;
    assert buf[..] == buf[..buf.Length];
  }

  /** The frame arp_create builds: the link-layer header addressed to
      `destHw` (broadcast when absent) from `srcHw` (the device address when
      absent), carrying the encoded packet. */
  function CreatedFrame(op: int, ptype: int, destIp: Ip, d: NetDev, srcIp: Ip,
                        destHw: Option<seq<byte>>, srcHw: Option<seq<byte>>, targetHw: Option<seq<byte>>): Frame
    requires DevOk(d)
    requires srcHw.Some? ==> |srcHw.value| >= d.dev.addrLen
    requires targetHw.Some? ==> |targetHw.value| >= d.dev.addrLen
  {
    Frame(ptype, if destHw.Some? then destHw.value else d.broadcast,
          if srcHw.Some? then srcHw.value else d.devAddr,
          Encode(CreatedHdr(d, op), SenderHw(d, srcHw), srcIp, TargetHw(d, targetHw), destIp))
  }

  /** arp_create: a packet for the device, or nothing when no buffer could be
      allocated (`oom`) or the link-layer header could not be built
      (`headerFails`). */
  method Create(op: int, ptype: int, destIp: Ip, d: NetDev, srcIp: Ip,
                destHw: Option<seq<byte>>, srcHw: Option<seq<byte>>, targetHw: Option<seq<byte>>,
                oom: bool, headerFails: bool)
    returns (r: Option<Frame>)
    requires DevOk(d)
    requires srcHw.Some? ==> |srcHw.value| >= d.dev.addrLen
    requires targetHw.Some? ==> |targetHw.value| >= d.dev.addrLen
    ensures r.None? <==> oom || headerFails
    ensures r.Some? ==> r.value == CreatedFrame(op, ptype, destIp, d, srcIp, destHw, srcHw, targetHw)
    ensures r.Some? ==> |r.value.arp| == ArpHdrLen(d.dev.addrLen)
  {
    if oom {
      return None;
    }
    var n := d.dev.addrLen;
    var buf := new byte[ArpHdrLen(n)];
    var src := if srcHw.Some? then srcHw.value else d.devAddr;
    var dst := if destHw.Some? then destHw.value else d.broadcast;
    if headerFails {
      return None;
    }
    var tha := if targetHw.Some? then targetHw.value else seq(n, _ => 0);
    Fill(buf, CreatedHdr(d, op), src, srcIp, tha, destIp, n);
    r := Some(Frame(ptype, dst, src, buf[..]));
  }

  /** arp_send: nothing on a device that does not do ARP, otherwise the
      frame arp_create builds (handed to arp_xmit). */
  method Send(op: int, ptype: int, destIp: Ip, d: NetDev, srcIp: Ip,
              destHw: Option<seq<byte>>, srcHw: Option<seq<byte>>, targetHw: Option<seq<byte>>,
              oom: bool, headerFails: bool)
    returns (r: Option<Frame>)
    requires DevOk(d)
    requires srcHw.Some? ==> |srcHw.value| >= d.dev.addrLen
    requires targetHw.Some? ==> |targetHw.value| >= d.dev.addrLen
    ensures r.None? <==> d.noarp || oom || headerFails
    ensures r.Some? ==> r.value == CreatedFrame(op, ptype, destIp, d, srcIp, destHw, srcHw, targetHw)
  {
    if d.noarp {
      return None;
    }
    r := Create(op, ptype, destIp, d, srcIp, destHw, srcHw, targetHw, oom, headerFails);
  }

  /** arp_rcv's sanity test: the whole packet is present, its address lengths
      match the device, the device does ARP, and the frame was not meant for
      another host nor looped back. */
  predicate RcvAccepts(pkt: seq<byte>, d: NetDev, pt: PktType) {
    && |pkt| >= ArpHdrLen(d.dev.addrLen)
    && ParseHdr(pkt).hln as int == d.dev.addrLen
    && !d.noarp
    && pt != PACKET_OTHERHOST && pt != PACKET_LOOPBACK
    && ParseHdr(pkt).pln == 4
  }

  /** arp_process's test of the hardware and protocol types against the
      device type: IEEE 802 style devices take Ethernet or IEEE 802 with
      IPv4, AX.25 and NET/ROM their own type with the AX.25 PID, any other
      device exactly its own type with IPv4. */
  predicate HwAccepted(devType: u16, h: ArpHdr) {
    if devType == ARPHRD_ETHER || devType == ARPHRD_IEEE802_TR || devType == ARPHRD_FDDI || devType == ARPHRD_IEEE802 then
      (h.hrd == ARPHRD_ETHER || h.hrd == ARPHRD_IEEE802) && h.pro == ETH_P_IP
    else if devType == ARPHRD_AX25 then
      h.pro == AX25_P_IP && h.hrd == ARPHRD_AX25
    else if devType == ARPHRD_NETROM then
      h.pro == AX25_P_IP && h.hrd == ARPHRD_NETROM
    else
      h.pro == ETH_P_IP && h.hrd == devType
  }

  /** Only requests and replies are understood. */
  predicate OpAccepted(h: ArpHdr) {
    h.op == ARPOP_REPLY || h.op == ARPOP_REQUEST
  }

  /** ipv4_is_loopback: 127.0.0.0/8. */
  predicate IsLoopback(ip: Ip) {
    ip[0] == 127
  }

  /** ipv4_is_multicast: 224.0.0.0/4. */
  predicate IsMulticast(ip: Ip) {
    ip[0] as int / 16 == 0xE
  }

  /** The header checks of arp_process before it looks at the addresses'
      meaning: types valid for the device, a known opcode, and a target that
      is neither loopback nor multicast. */
  predicate ProcessAccepts(pkt: seq<byte>, d: NetDev)
    requires |pkt| >= ArpHdrLen(d.dev.addrLen)
  {
    var h := ParseHdr(pkt);
    var f := Extract(pkt, d.dev.addrLen);
    HwAccepted(d.devType, h) && OpAccepted(h) && !IsLoopback(f.tip) && !IsMulticast(f.tip)
  }

  /** What arp_create sends on a device is accepted by arp_rcv and
      arp_process on a device of the same type and address length, for a
      request or a reply to an ordinary unicast target, and arp_process reads
      back the sender and target addresses that were written. */
  lemma CreatedIsAccepted(d: NetDev, e: NetDev, op: int, srcIp: Ip, destIp: Ip,
                          srcHw: Option<seq<byte>>, targetHw: Option<seq<byte>>, pt: PktType)
    requires DevOk(d) && DevOk(e)
    requires e.devType == d.devType && e.dev.addrLen == d.dev.addrLen && !e.noarp
    requires srcHw.Some? ==> |srcHw.value| >= d.dev.addrLen
    requires targetHw.Some? ==> |targetHw.value| >= d.dev.addrLen
    requires op == ARPOP_REQUEST as int || op == ARPOP_REPLY as int
    requires pt != PACKET_OTHERHOST && pt != PACKET_LOOPBACK
    requires !IsLoopback(destIp) && !IsMulticast(destIp)
    ensures var pkt := Encode(CreatedHdr(d, op), SenderHw(d, srcHw), srcIp, TargetHw(d, targetHw), destIp);
      RcvAccepts(pkt, e, pt) && ProcessAccepts(pkt, e)
      && Extract(pkt, e.dev.addrLen) == Fields(SenderHw(d, srcHw), srcIp, destIp)
  {
    var h := CreatedHdr(d, op);
    ExtractEncode(h, SenderHw(d, srcHw), srcIp, TargetHw(d, targetHw), destIp);
    assert HwAccepted(d.devType, h);
  }
}
