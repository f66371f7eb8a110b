/** Addresses as netip prints them: dotted quads, and hexadecimal groups with the longest run of zeros left out. */
module AddrText {
  import opened Strings
  import opened Numerals
  import opened Netip
  import opened ConfigText

  // ---------------------------------------------------------------- IPv4

  /** The n lowest bytes of a value, the highest first, joined by dots. */
  function Dotted(v: nat, n: nat): string
    decreases n
  {
    if n <= 1 then Digits(v % 256) else Dotted(v / 256, n - 1) + "." + Digits(v % 256)
  }

  // ---------------------------------------------------------------- IPv6

  function HexChar(d: nat): char
    requires d < 16
  {
    if d < 10 then DigitChar(d) else ('a' as int + (d - 10)) as char
  }

  /** A group without leading zeros. */
  function Hex(n: nat): string {
    if n < 16 then [HexChar(n)] else Hex(n / 16) + [HexChar(n % 16)]
  }

  /** The n lowest 16-bit groups, the highest first. */
  function Groups(v: nat, n: nat): (gs: seq<nat>)
    ensures |gs| == n
  {
    if n == 0 then [] else Groups(v / 0x1_0000, n - 1) + [v % 0x1_0000]
  }

  /** The zeros from position i on. */
  function ZeroRun(gs: seq<nat>, i: nat): (n: nat)
    requires i <= |gs|
    ensures i + n <= |gs|
    decreases |gs| - i
  {
    if i == |gs| || gs[i] != 0 then 0 else 1 + ZeroRun(gs, i + 1)
  }

  datatype Span = Span(from: nat, len: nat)

  /** The first of the longest runs of at least two zeros; an empty span when there is none. */
  function LongestRun(gs: seq<nat>, i: nat, best: Span): (r: Span)
    requires i <= |gs| && best.from + best.len <= |gs|
    ensures r.from + r.len <= |gs|
    decreases |gs| - i
  {
    if i == |gs| then best
    else
      var n := ZeroRun(gs, i);
      LongestRun(gs, i + 1, if n >= 2 && n > best.len then Span(i, n) else best)
  }

  function Colons(gs: seq<nat>): string {
    if gs == [] then ""
    else if |gs| == 1 then Hex(gs[0])
    else Hex(gs[0]) + ":" + Colons(gs[1..])
  }

  const MAPPED_PREFIX := 0xffff

  function Ipv6Text(v: nat): string {
    if v / 0x1_0000_0000 == MAPPED_PREFIX then "::ffff:" + Dotted(v, 4)
    else
      var gs := Groups(v, 8);
      var run := LongestRun(gs, 0, Span(0, 0));
      if run.len == 0 then Colons(gs)
      else Colons(gs[..run.from]) + "::" + Colons(gs[run.from + run.len..])
  }

  /** The text of an address as a prefix of full length, as a peer's allowed address is written. */
  function HostPrefixText(a: Addr): string {
    match a
    case Invalid => "invalid Prefix"
    case Addr(V4, v) => Dotted(v, 4) + "/32"
    case Addr(V6, v) => Ipv6Text(v) + "/128"
  }

  // ---------------------------------------------------------------- what such a text is made of

  predicate IsAddrChar(c: char) {
    '0' <= c <= '9' || 'a' <= c <= 'f' || c == ':' || c == '.' || c == '/'
  }

  ghost predicate AddrChars(s: string) {
    forall i :: 0 <= i < |s| ==> IsAddrChar(s[i])
  }

  lemma Both(a: string, b: string)
    requires AddrChars(a) && AddrChars(b)
    ensures AddrChars(a + b)
  {
  }

  lemma DigitsAreAddrChars(n: nat)
    ensures AddrChars(Digits(n))
  {
    forall i | 0 <= i < |Digits(n)|
      ensures IsAddrChar(Digits(n)[i])
    {
      assert IsDigit(Digits(n)[i]);
    }
  }

  lemma {:induction false} DottedChars(v: nat, n: nat)
    ensures AddrChars(Dotted(v, n)) && Dotted(v, n) != ""
    decreases n
  {
    DigitsAreAddrChars(v % 256);
    if n > 1 {
      DottedChars(v / 256, n - 1);
      Both(Dotted(v / 256, n - 1), ".");
      Both(Dotted(v / 256, n - 1) + ".", Digits(v % 256));
    }
  }

  lemma {:induction false} HexChars(n: nat)
    ensures AddrChars(Hex(n)) && Hex(n) != ""
  {
    if n >= 16 {
      HexChars(n / 16);
      Both(Hex(n / 16), [HexChar(n % 16)]);
    }
  }

  lemma {:induction false} ColonsChars(gs: seq<nat>)
    ensures AddrChars(Colons(gs)) && (gs != [] ==> Colons(gs) != "")
  {
    if gs != [] {
      HexChars(gs[0]);
      ColonsChars(gs[1..]);
      Both(Hex(gs[0]), ":");
      Both(Hex(gs[0]) + ":", Colons(gs[1..]));
    }
  }

  lemma Ipv6Chars(v: nat)
    ensures AddrChars(Ipv6Text(v)) && Ipv6Text(v) != ""
  {
    if v / 0x1_0000_0000 == MAPPED_PREFIX {
      DottedChars(v, 4);
      Both("::ffff:", Dotted(v, 4));
    } else {
      var gs := Groups(v, 8);
      var run := LongestRun(gs, 0, Span(0, 0));
      ColonsChars(gs);
      ColonsChars(gs[..run.from]);
      ColonsChars(gs[run.from + run.len..]);
      Both(Colons(gs[..run.from]), "::");
      Both(Colons(gs[..run.from]) + "::", Colons(gs[run.from + run.len..]));
    }
  }

  lemma HostPrefixChars(a: Addr)
    requires a.Addr?
    ensures AddrChars(HostPrefixText(a)) && HostPrefixText(a) != ""
  {
    if a.family.V4? {
      DottedChars(a.value, 4);
      Both(Dotted(a.value, 4), "/32");
    } else {
      Ipv6Chars(a.value);
      Both(Ipv6Text(a.value), "/128");
    }
  }

  /** An address is a plain item: on one line, without commas or space around it. */
  lemma HostPrefixIsPlain(a: Addr)
    ensures HostPrefixText(a) != "" && Trimmed(HostPrefixText(a)) && NoNewline(HostPrefixText(a)) && ',' !in HostPrefixText(a)
  {
    if a.Addr? {
      HostPrefixChars(a);
      PlainChars(HostPrefixText(a));
    }
  }

  lemma PlainChars(s: string)
    requires AddrChars(s)
    ensures Trimmed(s) && NoNewline(s) && ',' !in s
  {
  }
}
