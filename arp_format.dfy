/**
 * The hardware-address column of /proc/net/arp (net/ipv4/arp.c,
 * arp_format_neigh_entry and ax2asc2): an address as colon-separated
 * lower-case hex pairs in a 30-character buffer, or for AX.25 and NET/ROM
 * devices the callsign and SSID of an AX.25 address.
 *
 * Both are written, as in the source, as loops that fill a character buffer;
 * each loop is proved against a function on sequences, and the functions
 * are shown to read back: the hex text decodes to the bytes shown, and an
 * encoded callsign displays as itself.
 */
module ArpFormat {
  import opened NeighEntry
  import opened ArpWire

  /** The size of the hex buffer in arp_format_neigh_entry. */
  const HBUFFERLEN: nat := 30

  /** The digits of hex_asc. */
  const HEX: string := "0123456789abcdef"

  function Min(a: nat, b: nat): nat {
    if a <= b then a else b
  }

  // ---------------------------------------------------------------------
  // Hex pairs
  // ---------------------------------------------------------------------

  /** hex_asc_hi and hex_asc_lo. */
  function HexHi(b: byte): char {
    HEX[b as int / 16]
  }

  function HexLo(b: byte): char {
    HEX[b as int % 16]
  }

  /** Bytes as hex pairs separated by ':'. */
  function HexText(bs: seq<byte>): string {
    if |bs| == 0 then ""
    else if |bs| == 1 then [HexHi(bs[0]), HexLo(bs[0])]
    else [HexHi(bs[0]), HexLo(bs[0]), ':'] + HexText(bs[1..])
  }

  /** Bytes as hex pairs each followed by ':', which is what the loop has
      written after each step. */
  function Pairs(bs: seq<byte>): string {
    if |bs| == 0 then "" else [HexHi(bs[0]), HexLo(bs[0]), ':'] + Pairs(bs[1..])
  }

  /** The value of a hex digit. */
  function HexValue(c: char): (v: nat)
    ensures v < 16
  {
    if '0' <= c <= '9' then c as nat - '0' as nat
    else if 'a' <= c <= 'f' then c as nat - 'a' as nat + 10
    else 0
  }

  /** Reading colon-separated hex pairs back into bytes. */
  function Unhex(s: string): seq<byte> {
    if |s| < 2 then []
    else [(HexValue(s[0]) * 16 + HexValue(s[1])) as byte] + (if |s| < 3 then [] else Unhex(s[3..]))
  }

  lemma PairValue(b: byte)
    ensures HexValue(HexHi(b)) * 16 + HexValue(HexLo(b)) == b as int
  {
    assert forall i :: 0 <= i < 16 ==> HexValue(HEX[i]) == i;
  }

  lemma {:induction false} PairsSnoc(bs: seq<byte>, b: byte)
    ensures Pairs(bs + [b]) == Pairs(bs) + [HexHi(b), HexLo(b), ':']
    decreases |bs|
  {
    if |bs| == 0 {
      assert bs + [b] == [b];
    } else {
      assert (bs + [b])[1..] == bs[1..] + [b];
      PairsSnoc(bs[1..], b);
    }
  }

  lemma {:induction false} PairsAreText(bs: seq<byte>)
    requires |bs| > 0
    ensures Pairs(bs) == HexText(bs) + ":"
    decreases |bs|
  {
    if |bs| > 1 {
      PairsAreText(bs[1..]);
    }
  }

  /** The shown text reads back as exactly the bytes shown. */
  lemma {:induction false} HexReadsBack(bs: seq<byte>)
    ensures Unhex(HexText(bs)) == bs
    decreases |bs|
  {
    if |bs| > 0 {
      PairValue(bs[0]);
      var s := HexText(bs);
      assert s[0] == HexHi(bs[0]) && s[1] == HexLo(bs[0]);
      var v := HexValue(s[0]) * 16 + HexValue(s[1]);
      assert v as byte == bs[0];
      if |bs| > 1 {
        HexReadsBack(bs[1..]);
        assert s[3..] == HexText(bs[1..]);
        assert Unhex(s) == [bs[0]] + bs[1..];
      }
    }
  }

  /** The text takes three characters per byte less the last separator. */
  lemma {:induction false} HexLength(bs: seq<byte>)
    ensures |HexText(bs)| == if |bs| == 0 then 0 else 3 * |bs| - 1
    decreases |bs|
  {
    if |bs| > 1 {
      HexLength(bs[1..]);
    }
  }

  /** The hex column of arp_format_neigh_entry: the first `addrLen` bytes of
      `ha`, but no more than fit the buffer (nine), as hex pairs. */
  method FormatHex(ha: seq<byte>, addrLen: nat) returns (text: string)
    requires addrLen <= |ha|
    ensures text == HexText(ha[..Min(addrLen, 9)])
    ensures |text| < HBUFFERLEN
  {
    var hbuffer := new char[HBUFFERLEN];
    var k, j := 0, 0;
    while k < HBUFFERLEN - 3 && j < addrLen
      invariant 0 <= j <= addrLen && j <= 9 && k == 3 * j
      invariant hbuffer[..k] == Pairs(ha[..j])
    {
      hbuffer[k] := HexHi(ha[j]);
      hbuffer[k + 1] := HexLo(ha[j]);
      hbuffer[k + 2] := ':';
      PairsSnoc(ha[..j], ha[j]);
      assert ha[..j + 1] == ha[..j] + [ha[j]];
      assert hbuffer[..k + 3] == hbuffer[..k] + [HexHi(ha[j]), HexLo(ha[j]), ':'];
      k, j := k + 3, j + 1;
    }
    assert j == Min(addrLen, 9);
    if k != 0 {
      PairsAreText(ha[..j]);
      k := k - 1;
      assert hbuffer[..k] == hbuffer[..k + 1][..k];
    }
    hbuffer[k] := 0 as char;
    text := hbuffer[..k];
  }

  // ---------------------------------------------------------------------
  // AX.25 callsigns
  // ---------------------------------------------------------------------

  /** A callsign character: the byte shifted right by one, seven bits. */
  function AxChar(b: byte): char {
    ((b as int / 2) % 128) as char
  }

  /** The SSID in the seventh byte. */
  function Ssid(b: byte): nat {
    (b as int / 2) % 16
  }

  /** The callsign characters of `call`, spaces dropped. */
  function Kept(call: seq<byte>): string {
    if |call| == 0 then ""
    else Kept(call[..|call| - 1]) + (if AxChar(call[|call| - 1]) != ' ' then [AxChar(call[|call| - 1])] else "")
  }

  /** The SSID in decimal: one digit, or '1' and a digit. */
  function SsidText(n: nat): string
    requires n < 16
  {
    if n > 9 then ['1', (n - 10 + '0' as int) as char] else [(n + '0' as int) as char]
  }

  /** What ax2asc2 writes into its buffer before the terminating NUL. */
  function Raw(call: seq<byte>): string
    requires |call| >= 7
  {
    Kept(call[..6]) + "-" + SsidText(Ssid(call[6]))
  }

  /** A character buffer read as a C string: up to the first NUL. */
  function CString(s: string): string {
    if |s| == 0 || s[0] == 0 as char then "" else [s[0]] + CString(s[1..])
  }

  /** What ax2asc2 returns: the buffer, or "*" when it holds no callsign. */
  function AxShown(call: seq<byte>): string
    requires |call| >= 7
  {
    var b := CString(Raw(call));
    if b == "" || b[0] == '-' then "*" else b
  }

  lemma KeptSnoc(call: seq<byte>, n: nat)
    requires n < |call|
    ensures Kept(call[..n + 1]) == Kept(call[..n]) + (if AxChar(call[n]) != ' ' then [AxChar(call[n])] else "")
  {
    assert call[..n + 1][..n] == call[..n];
  }

  /** ax2asc2: the callsign bytes are shifted down and copied without their
      padding spaces, then '-' and the SSID in decimal, then a NUL; the
      result is the buffer, or "*" when the buffer starts with NUL or '-'. */
  method Ax2Asc2(call: seq<byte>, buf: array<char>) returns (shown: string)
    requires |call| >= 7 && buf.Length >= 10
    modifies buf
    ensures |Raw(call)| < buf.Length && buf[..|Raw(call)|] == Raw(call) && buf[|Raw(call)|] == 0 as char
    ensures shown == AxShown(call)
  {
    var s, n := 0, 0;
    while n < 6
      invariant 0 <= s <= n <= 6
      invariant buf[..s] == Kept(call[..n])
    {
      var c := AxChar(call[n]);
      KeptSnoc(call, n);
      if c != ' ' {
        buf[s] := c;
        assert buf[..s + 1] == buf[..s] + [c];
        s := s + 1;
      }
      n := n + 1;
    }
    assert call[..6][..6] == call[..6];
    buf[s] := '-';
    s := s + 1;
    var m := Ssid(call[6]);
    if m > 9 {
      buf[s] := '1';
      s := s + 1;
      m := m - 10;
    }
    buf[s] := (m + '0' as int) as char;
    s := s + 1;
    buf[s] := 0 as char;
    assert buf[..s] == Raw(call);
    if buf[0] == 0 as char || buf[0] == '-' {
      shown := "*";
    } else {
      shown := CString(buf[..s]);
    }
  }

  /** The encoding of a callsign in an AX.25 address: each character shifted
      up by one, padded with spaces to six characters. */
  function AxCall(t: string): seq<byte>
    requires |t| <= 6 && forall i :: 0 <= i < |t| ==> t[i] as int < 128
  {
    Shifted(t) + Padding(6 - |t|)
  }

  function Shifted(t: string): seq<byte>
    requires forall i :: 0 <= i < |t| ==> t[i] as int < 128
  {
    seq(|t|, i requires 0 <= i < |t| => (2 * t[i] as int) as byte)
  }

  function Padding(n: nat): seq<byte> {
    seq(n, _ => (2 * ' ' as int) as byte)
  }

  /** A callsign ax2asc2 can show: one to six 7-bit characters, none of
      them a space or NUL, not starting with '-'. */
  predicate Callsign(t: string) {
    && 1 <= |t| <= 6 && t[0] != '-'
    && forall i :: 0 <= i < |t| ==> 0 < t[i] as int < 128 && t[i] != ' '
  }

  lemma {:induction false} KeptPadding(xs: seq<byte>, pad: nat)
    ensures Kept(xs + Padding(pad)) == Kept(xs)
    decreases pad
  {
    if pad > 0 {
      var ys := xs + Padding(pad);
      assert ys[..|ys| - 1] == xs + Padding(pad - 1);
      KeptPadding(xs, pad - 1);
    } else {
      assert xs + Padding(0) == xs;
    }
  }

  lemma {:induction false} KeptShifted(t: string)
    requires forall i :: 0 <= i < |t| ==> 0 < t[i] as int < 128 && t[i] != ' '
    ensures Kept(Shifted(t)) == t
    decreases |t|
  {
    if |t| > 0 {
      var u := t[..|t| - 1];
      assert Shifted(t)[..|t| - 1] == Shifted(u);
      KeptShifted(u);
      assert AxChar(Shifted(t)[|t| - 1]) == t[|t| - 1];
    }
  }

  lemma {:induction false} CStringWhole(s: string)
    requires forall i :: 0 <= i < |s| ==> s[i] != 0 as char
    ensures CString(s) == s
    decreases |s|
  {
    if |s| > 0 {
      CStringWhole(s[1..]);
    }
  }

  /** An encoded callsign shows as itself, '-', and its SSID in decimal. */
  lemma CallsignShown(t: string, call: seq<byte>)
    requires Callsign(t) && |call| >= 7 && call[..6] == AxCall(t)
    ensures AxShown(call) == t + "-" + SsidText(Ssid(call[6]))
  {
    KeptShifted(t);
    KeptPadding(Shifted(t), 6 - |t|);
    var r := Raw(call);
    assert r == t + "-" + SsidText(Ssid(call[6]));
    assert forall i :: 0 <= i < |r| ==> r[i] != 0 as char by {
      forall i | 0 <= i < |r| ensures r[i] != 0 as char {
        if i < |t| {
          assert r[i] == t[i];
        }
      }
    }
    CStringWhole(r);
  }

  /** The SSID digits read back as the SSID. */
  lemma SsidReadsBack(n: nat)
    requires n < 16
    ensures var d := SsidText(n);
      n == if |d| == 2 then 10 + (d[1] as int - '0' as int) else d[0] as int - '0' as int
  {
  }

  // ---------------------------------------------------------------------
  // The column
  // ---------------------------------------------------------------------

  /** The hardware-address column as intended: for AX.25 and NET/ROM devices
      what ax2asc2 returns, else the hex pairs. */
  function HwColumn(devType: u16, ha: seq<byte>, addrLen: nat): string
    requires |ha| >= 7 && addrLen <= |ha|
  {
    if devType == ARPHRD_AX25 || devType == ARPHRD_NETROM then AxShown(ha) else HexText(ha[..Min(addrLen, 9)])
  }

  /** The column as arp_format_neigh_entry prints it: ax2asc2's result is
      dropped and the buffer it filled is printed. */
  method FormatHwAsWritten(devType: u16, ha: seq<byte>, addrLen: nat) returns (text: string)
    requires |ha| >= 7 && addrLen <= |ha|
    ensures devType == ARPHRD_AX25 || devType == ARPHRD_NETROM ==> text == CString(Raw(ha))
    ensures devType != ARPHRD_AX25 && devType != ARPHRD_NETROM ==> text == HwColumn(devType, ha, addrLen)
  {
    if devType == ARPHRD_AX25 || devType == ARPHRD_NETROM {
      var hbuffer := new char[HBUFFERLEN];
      var _ := Ax2Asc2(ha, hbuffer);
      var r := Raw(ha);
      assert hbuffer[..|r| + 1] == r + [0 as char];
      text := CString(hbuffer[..|r| + 1]);
      CStringPrefix(r);
    } else {
      text := FormatHex(ha, addrLen);
    }
  }

  lemma {:induction false} CStringPrefix(s: string)
    ensures CString(s + [0 as char]) == CString(s)
    decreases |s|
  {
    if |s| > 0 {
      assert (s + [0 as char])[1..] == s[1..] + [0 as char];
      CStringPrefix(s[1..]);
    }
  }

  /** An address with a blank callsign: as written the column shows "-0"
      where ax2asc2 returns "*". */
  lemma BlankCallsignShown()
    ensures var call: seq<byte> := [64, 64, 64, 64, 64, 64, 0];
      CString(Raw(call)) == "-0" && AxShown(call) == "*"
  {
    var call: seq<byte> := [64, 64, 64, 64, 64, 64, 0];
    assert Kept(call[..6]) == "" by {
      assert call[..6] == [] + Padding(6);
      KeptPadding([], 6);
    }
    CStringWhole("-0");
  }

  /** The column using ax2asc2's result. */
  method FormatHw(devType: u16, ha: seq<byte>, addrLen: nat) returns (text: string)
    requires |ha| >= 7 && addrLen <= |ha|
    ensures text == HwColumn(devType, ha, addrLen)
  {
    if devType == ARPHRD_AX25 || devType == ARPHRD_NETROM {
      var hbuffer := new char[HBUFFERLEN];
      text := Ax2Asc2(ha, hbuffer);
    } else {
      text := FormatHex(ha, addrLen);
    }
  }
}
