/** Addresses as bytes and as text. */
module Addresses {
  import opened Machine
  import opened Strings

  /** The bytes of an address: four of them for every flow the probes record. */
  type Ip = seq<u8>

  /** The name lookup a report is given; it is fixed while one report is made. */
  type Resolver = Ip -> string

  datatype FlowId = FlowId(srcIp: Ip, dstIp: Ip, srcPort: u16, dstPort: u16)

  const HEX := "0123456789abcdef"

  function Hex(ip: Ip): string {
    if ip == [] then "" else Hex(ip[..|ip| - 1]) + [HEX[ip[|ip| - 1] / 16], HEX[ip[|ip| - 1] % 16]]
  }

  function Dotted(ip: Ip): string
    requires ip != []
  {
    if |ip| == 1 then Decimal(ip[0]) else Decimal(ip[0]) + ['.'] + Dotted(ip[1..])
  }

  /** Dotted decimals for four bytes, hexadecimal digits for anything else. */
  function IpText(ip: Ip): string {
    if |ip| == 4 then Dotted(ip) else Hex(ip)
  }

  /** The numbers between the dots of a text. */
  function Fields(s: string): seq<nat>
    decreases |s|
  {
    var i := FirstIndex(s, '.');
    if i == |s| then [Number(s)] else [Number(s[..i])] + Fields(s[i + 1..])
  }

  lemma FieldsCons(a: nat, rest: string)
    ensures Fields(Decimal(a) + ['.'] + rest) == [a] + Fields(rest)
  {
    DecimalPlain(a, '.');
    FirstIndexAt(Decimal(a), '.', rest);
    DecimalRoundTrip(a);
  }

  /** A dotted address can be read back, so different addresses have different texts. */
  lemma {:induction false} DottedRoundTrip(ip: Ip)
    requires ip != []
    ensures Fields(Dotted(ip)) == ip
  {
    if |ip| == 1 {
      DecimalPlain(ip[0], '.');
      FirstIndexNone(Decimal(ip[0]), '.');
      DecimalRoundTrip(ip[0]);
    } else {
      FieldsCons(ip[0], Dotted(ip[1..]));
      DottedRoundTrip(ip[1..]);
    }
  }

  lemma IpTextInjective(a: Ip, b: Ip)
    requires |a| == |b| == 4 && IpText(a) == IpText(b)
    ensures a == b
  {
    DottedRoundTrip(a);
    DottedRoundTrip(b);
  }

  /** Reading a dotted address; the empty address stands for a nil one. */
  function ParseIp(s: string): Ip {
    var fields := Fields(s);
    if forall i :: 0 <= i < |fields| ==> fields[i] < 0x100 then
      seq(|fields|, i requires 0 <= i < |fields| => fields[i])
    else []
  }

  lemma ParseIpRoundTrip(ip: Ip)
    requires |ip| == 4
    ensures ParseIp(IpText(ip)) == ip
  {
    DottedRoundTrip(ip);
    assert forall i :: 0 <= i < |ip| ==> Fields(IpText(ip))[i] == ip[i];
  }

  /** The text of four bytes is their decimals between dots, in order. */
  lemma DottedText(a: u8, b: u8, c: u8, d: u8)
    ensures IpText([a, b, c, d]) == Decimal(a) + "." + Decimal(b) + "." + Decimal(c) + "." + Decimal(d)
  {
    hide Decimal;
    assert [a, b, c, d][1..] == [b, c, d] && [b, c, d][1..] == [c, d] && [c, d][1..] == [d];
    assert Dotted([c, d]) == Decimal(c) + ['.'] + Decimal(d);
    assert Dotted([b, c, d]) == Decimal(b) + ['.'] + Dotted([c, d]);
    assert Dotted([a, b, c, d]) == Decimal(a) + ['.'] + Dotted([b, c, d]);
    assert Decimal(a) + "." + Decimal(b) + "." + Decimal(c) + "." + Decimal(d) ==
           Decimal(a) + ['.'] + (Decimal(b) + ['.'] + (Decimal(c) + ['.'] + Decimal(d)));
  }

  /** The text of any other number of bytes is two hexadecimal digits for each, in order. */
  lemma {:induction false} HexText(ip: Ip, i: nat)
    requires i < |ip| && |ip| != 4
    ensures |IpText(ip)| == 2 * |ip|
    ensures IpText(ip)[2 * i] == "0123456789abcdef"[ip[i] / 16]
    ensures IpText(ip)[2 * i + 1] == "0123456789abcdef"[ip[i] % 16]
  {
    HexDigits(ip, i);
  }

  lemma {:induction false} HexDigits(ip: Ip, i: nat)
    requires i < |ip|
    ensures |Hex(ip)| == 2 * |ip|
    ensures Hex(ip)[2 * i] == HEX[ip[i] / 16] && Hex(ip)[2 * i + 1] == HEX[ip[i] % 16]
    decreases |ip|
  {
    var n := |ip| - 1;
    if n == 0 {
      assert Hex(ip[..0]) == "";
    } else {
      HexDigits(ip[..n], if i < n then i else 0);
    }
  }

  /** The text of an address holds nothing but digits, dots and the letters of hexadecimal digits. */
  lemma IpTextPlain(ip: Ip, c: char)
    requires c != '.' && !('0' <= c <= '9') && !('a' <= c <= 'f')
    ensures c !in IpText(ip)
  {
    if |ip| == 4 {
      DottedPlain(ip, c);
    } else {
      HexPlain(ip, c);
    }
  }

  lemma {:induction false} DottedPlain(ip: Ip, c: char)
    requires ip != [] && c != '.' && !('0' <= c <= '9')
    ensures c !in Dotted(ip)
  {
    DecimalPlain(ip[0], c);
    if |ip| > 1 {
      DottedPlain(ip[1..], c);
    }
  }

  lemma {:induction false} HexPlain(ip: Ip, c: char)
    requires !('0' <= c <= '9') && !('a' <= c <= 'f')
    ensures c !in Hex(ip)
    decreases |ip|
  {
    if ip != [] {
      HexPlain(ip[..|ip| - 1], c);
    }
  }
}
