/**
 * Percent-encoding of strings (section 2.1 of RFC 3986) as `encodeURIComponent` and `decodeURIComponent` do it,
 * over UTF-8 (section 3 of RFC 3629).
 */
module PercentCoding {
  import opened Prelude

  predicate Unreserved(c: char)
  {
    'A' <= c <= 'Z' || 'a' <= c <= 'z' || '0' <= c <= '9' || c in "-_.!~*'()"
  }

  function HexDigit(n: nat): char
    requires n < 16
  {
    if n < 10 then '0' + n as char else 'A' + (n - 10) as char
  }

  function HexValue(c: char): Option<nat>
  {
    if '0' <= c <= '9' then Some(c as int - '0' as int)
    else if 'A' <= c <= 'F' then Some(c as int - 'A' as int + 10)
    else if 'a' <= c <= 'f' then Some(c as int - 'a' as int + 10)
    else None
  }

  type Byte = b: int | 0 <= b < 256

  function Octet(b: Byte): string { ['%', HexDigit(b / 16), HexDigit(b % 16)] }

  /** The UTF-8 form of a character. */
  function Utf8(c: char): seq<Byte>
  {
    var n := c as int;
    if n < 0x80 then [n]
    else if n < 0x800 then [0xC0 + n / 0x40, 0x80 + n % 0x40]
    else if n < 0x10000 then [0xE0 + n / 0x1000, 0x80 + n / 0x40 % 0x40, 0x80 + n % 0x40]
    else [0xF0 + n / 0x40000, 0x80 + n / 0x1000 % 0x40, 0x80 + n / 0x40 % 0x40, 0x80 + n % 0x40]
  }

  function Octets(bytes: seq<Byte>): string
  {
    if bytes == [] then [] else Octet(bytes[0]) + Octets(bytes[1..])
  }

  function EncodeChar(c: char): string { if Unreserved(c) then [c] else Octets(Utf8(c)) }

  function Encode(s: string): string
  {
    if s == [] then [] else EncodeChar(s[0]) + Encode(s[1..])
  }

  /** The octet written at the front of the text, if one is. */
  function OctetAt(t: string): Option<Byte>
  {
    if |t| >= 3 && t[0] == '%' && HexValue(t[1]).Some? && HexValue(t[2]).Some?
    then Some(16 * HexValue(t[1]).value + HexValue(t[2]).value) else None
  }

  /** `n` continuation octets appended to the bits read so far. */
  function Continue(t: string, n: nat, bits: nat): Option<nat>
    decreases n
  {
    if n == 0 then Some(bits)
    else
      var b := OctetAt(t);
      if b.None? || !(0x80 <= b.value < 0xC0) then None else Continue(t[3..], n - 1, 0x40 * bits + (b.value - 0x80))
  }

  /** Neither overlong, nor a surrogate, nor past the last code point. */
  predicate Scalar(n: nat, width: nat)
  {
    && (width == 2 ==> 0x80 <= n) && (width == 3 ==> 0x800 <= n) && (width == 4 ==> 0x10000 <= n)
    && (n < 0xD800 || 0xE000 <= n < 0x110000)
  }

  /** What the first octet says: how many there are and its share of the bits. */
  function Lead(b: Byte): (nat, nat)
    requires 0xC0 <= b < 0xF8
  {
    if b < 0xE0 then (2, b - 0xC0) else if b < 0xF0 then (3, b - 0xE0) else (4, b - 0xF0)
  }

  /** The character at the front of the text and how many characters of text it took. */
  function DecodeChar(t: string): Option<(char, nat)>
    requires t != []
  {
    if t[0] != '%' then Some((t[0], 1))
    else
      var b := OctetAt(t);
      if b.None? then None
      else if b.value < 0x80 then Some((b.value as char, 3))
      else if b.value < 0xC0 || b.value >= 0xF8 then None
      else
        var (width, lead) := Lead(b.value);
        var n := Continue(t[3..], width - 1, lead);
        if n.None? || !Scalar(n.value, width) || |t| < 3 * width then None else Some((n.value as char, 3 * width))
  }

  function Decode(t: string): Option<string>
  {
    if t == [] then Some([])
    else
      var c := DecodeChar(t);
      if c.None? || !(0 < c.value.1 <= |t|) then None
      else
        var rest := Decode(t[c.value.1..]);
        if rest.None? then None else Some([c.value.0] + rest.value)
  }

  lemma OctetRoundTrip(b: Byte, rest: string)
    ensures OctetAt(Octet(b) + rest) == Some(b)
  {
  }

  /** The bits of continuation octets after those already read. */
  function Gather(bits: nat, u: seq<Byte>): nat
    requires forall i | 0 <= i < |u| :: 0x80 <= u[i] < 0xC0
    decreases u
  {
    if u == [] then bits else Gather(0x40 * bits + (u[0] as int - 0x80), u[1..])
  }

  lemma {:induction false} ContinueGathers(u: seq<Byte>, rest: string, bits: nat)
    requires forall i | 0 <= i < |u| :: 0x80 <= u[i] < 0xC0
    ensures Continue(Octets(u) + rest, |u|, bits) == Some(Gather(bits, u)) && |Octets(u)| == 3 * |u|
  {
    if u == [] {
      assert Octets(u) + rest == rest;
    } else {
      var more := Octets(u[1..]) + rest;
      assert Octets(u) + rest == Octet(u[0]) + more;
      OctetRoundTrip(u[0], more);
      assert (Octet(u[0]) + more)[3..] == more;
      ContinueGathers(u[1..], rest, 0x40 * bits + (u[0] as int - 0x80));
    }
  }

  lemma GatherTwo(bits: nat, u: seq<Byte>)
    requires |u| == 2 && forall i | 0 <= i < |u| :: 0x80 <= u[i] < 0xC0
    ensures Gather(bits, u) == 0x40 * (0x40 * bits + (u[0] as int - 0x80)) + (u[1] as int - 0x80)
  {
    var more := 0x40 * bits + (u[0] as int - 0x80);
    assert Gather(more, u[1..]) == 0x40 * more + (u[1] as int - 0x80) by { assert u[1..][1..] == []; }
  }

  lemma GatherThree(bits: nat, u: seq<Byte>)
    requires |u| == 3 && forall i | 0 <= i < |u| :: 0x80 <= u[i] < 0xC0
    ensures Gather(bits, u) == 0x40 * (0x40 * (0x40 * bits + (u[0] as int - 0x80)) + (u[1] as int - 0x80)) + (u[2] as int - 0x80)
  {
    GatherTwo(0x40 * bits + (u[0] as int - 0x80), u[1..]);
  }

  lemma Sextets(n: nat)
    ensures 0x40 * (n / 0x1000) + n / 0x40 % 0x40 == n / 0x40 && 0x40 * (n / 0x40000) + n / 0x1000 % 0x40 == n / 0x1000
  {
  }

  /** The octets give the code point back. */
  ghost predicate Coded(c: char, u: seq<Byte>)
  {
    && 2 <= |u| && 0xC0 <= u[0] < 0xF8 && Lead(u[0]).0 == |u| && (forall i | 1 <= i < |u| :: 0x80 <= u[i] < 0xC0)
    && Gather(Lead(u[0]).1, u[1..]) == c as int && Scalar(c as int, |u|)
  }

  lemma Utf8Four(c: char)
    requires 0x10000 <= c as int
    ensures Coded(c, Utf8(c))
  {
    var u := Utf8(c);
    Sextets(c as int);
    GatherThree(Lead(u[0]).1, u[1..]);
  }

  lemma Utf8Three(c: char)
    requires 0x800 <= c as int < 0x10000
    ensures Coded(c, Utf8(c))
  {
    var u := Utf8(c);
    Sextets(c as int);
    GatherTwo(Lead(u[0]).1, u[1..]);
  }

  /** Every character past ASCII is coded in octets that give it back. */
  lemma Utf8Gathers(c: char)
    requires 0x80 <= c as int
    ensures Coded(c, Utf8(c))
  {
    if c as int >= 0x10000 {
      Utf8Four(c);
    } else if c as int >= 0x800 {
      Utf8Three(c);
    } else {
      assert Utf8(c)[1..][1..] == [];
    }
  }

  lemma ManyOctets(c: char, rest: string)
    requires 0x80 <= c as int
    ensures DecodeChar(Octets(Utf8(c)) + rest) == Some((c, |Octets(Utf8(c))|))
  {
    var u := Utf8(c);
    var more := Octets(u[1..]) + rest;
    Utf8Gathers(c);
    assert Octets(u) + rest == Octet(u[0]) + more;
    OctetRoundTrip(u[0], more);
    assert (Octet(u[0]) + more)[3..] == more;
    ContinueGathers(u[1..], rest, Lead(u[0]).1);
  }

  lemma CharRoundTrip(c: char, rest: string)
    ensures EncodeChar(c) != [] && DecodeChar(EncodeChar(c) + rest) == Some((c, |EncodeChar(c)|))
  {
    if !Unreserved(c) {
      if c as int < 0x80 {
        var u := Utf8(c);
        assert u[1..] == [];
        assert Octets(u) == Octet(u[0]);
        OctetRoundTrip(u[0], rest);
      } else {
        ManyOctets(c, rest);
      }
    }
  }

  /** Every string is read back exactly as it was written. */
  lemma {:induction false} RoundTrip(s: string)
    ensures Decode(Encode(s)) == Some(s)
  {
    if s != [] {
      var head, rest := EncodeChar(s[0]), Encode(s[1..]);
      CharRoundTrip(s[0], rest);
      RoundTrip(s[1..]);
      var t := Encode(s);
      assert t == head + rest && t[|head|..] == rest;
      assert s == [s[0]] + s[1..];
    }
  }

  /** An encoded string is written in unreserved characters and `%` alone. */
  lemma {:induction false} EncodedAlphabet(s: string)
    ensures forall i | 0 <= i < |Encode(s)| :: Unreserved(Encode(s)[i]) || Encode(s)[i] == '%'
    ensures Encode(s) == [] <==> s == []
  {
    if s != [] {
      EncodedAlphabet(s[1..]);
      CharAlphabet(s[0]);
      CharRoundTrip(s[0], []);
    }
  }

  lemma {:induction false} OctetsAlphabet(u: seq<Byte>)
    ensures forall i | 0 <= i < |Octets(u)| :: Unreserved(Octets(u)[i]) || Octets(u)[i] == '%'
  {
    if u != [] { OctetsAlphabet(u[1..]); }
  }

  lemma CharAlphabet(c: char)
    ensures forall i | 0 <= i < |EncodeChar(c)| :: Unreserved(EncodeChar(c)[i]) || EncodeChar(c)[i] == '%'
  {
    OctetsAlphabet(Utf8(c));
  }
}
