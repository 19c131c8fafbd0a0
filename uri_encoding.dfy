/** encodeURIComponent and decodeURIComponent as ECMA-262 defines them ("URI Handling
    Functions"): percent-encoding (section 2.1 of RFC 3986) of the UTF-8 octets (RFC 3629)
    of every character outside the unreserved set. Characters are Unicode scalar values. */
module UriEncoding {
  import opened Wrappers

  type Byte = b: nat | b < 256

  /** Characters encodeURIComponent keeps as they are: ASCII letters, digits and - _ . ! ~ * ' ( ) */
  predicate IsUnreserved(c: char) {
    ('A' <= c <= 'Z') || ('a' <= c <= 'z') || ('0' <= c <= '9') ||
    c == '-' || c == '_' || c == '.' || c == '!' || c == '~' || c == '*' || c == '\'' || c == '(' || c == ')'
  }

  /** A Unicode scalar value: a code point that is not a surrogate */
  predicate IsScalar(n: int) {
    0 <= n < 0xD800 || 0xE000 <= n < 0x11_0000
  }

  /** The upper-case hexadecimal digit encodeURIComponent writes for d */
  function HexDigit(d: nat): (c: char)
    requires d < 16
    ensures HexValue(c) == Some(d)
  {
    if d < 10 then (48 + d) as char else (55 + d) as char
  }

  /** The value of a hexadecimal digit of either case, as decodeURIComponent reads it */
  function HexValue(c: char): (r: Option<nat>)
    ensures r.Some? ==> r.value < 16
  {
    if '0' <= c <= '9' then Some(c as int - '0' as int)
    else if 'A' <= c <= 'F' then Some(c as int - 'A' as int + 10)
    else if 'a' <= c <= 'f' then Some(c as int - 'a' as int + 10)
    else None
  }

  /** The number of leading 1 bits of an octet */
  function LeadingOnes(b: Byte): nat {
    if b < 0x80 then 0
    else if b < 0xC0 then 1
    else if b < 0xE0 then 2
    else if b < 0xF0 then 3
    else if b < 0xF8 then 4
    else if b < 0xFC then 5
    else if b < 0xFE then 6
    else if b < 0xFF then 7
    else 8
  }

  predicate IsContinuation(b: Byte) {
    0x80 <= b < 0xC0
  }

  /** The UTF-8 octets of a scalar value (RFC 3629, section 3) */
  function Utf8Encode(cp: nat): (bs: seq<Byte>)
    requires IsScalar(cp)
    ensures 1 <= |bs| <= 4
  {
    if cp < 0x80 then [cp]
    else if cp < 0x800 then [0xC0 + cp / 64, 0x80 + cp % 64]
    else if cp < 0x1_0000 then [0xE0 + cp / 4096, 0x80 + (cp / 64) % 64, 0x80 + cp % 64]
    else [0xF0 + cp / 262144, 0x80 + (cp / 4096) % 64, 0x80 + (cp / 64) % 64, 0x80 + cp % 64]
  }

  /** The scalar value whose UTF-8 encoding the octets are, or None when they are not the
      valid encoding of one code point: wrong lead octet for the length, a bad continuation
      octet, an overlong form, a surrogate, or a value beyond U+10FFFF */
  function Utf8Decode(bs: seq<Byte>): (r: Option<nat>)
    ensures r.Some? ==> IsScalar(r.value)
  {
    if |bs| == 1 then
      if bs[0] < 0x80 then Some(bs[0]) else None
    else if |bs| == 2 then
      if LeadingOnes(bs[0]) == 2 && IsContinuation(bs[1]) then
        var v := (bs[0] as int - 0xC0) * 64 + (bs[1] as int - 0x80);
        if 0x80 <= v then Some(v) else None
      else None
    else if |bs| == 3 then
      if LeadingOnes(bs[0]) == 3 && IsContinuation(bs[1]) && IsContinuation(bs[2]) then
        var v := (bs[0] as int - 0xE0) * 4096 + (bs[1] as int - 0x80) * 64 + (bs[2] as int - 0x80);
        if 0x800 <= v && !(0xD800 <= v < 0xE000) then Some(v) else None
      else None
    else if |bs| == 4 then
      if LeadingOnes(bs[0]) == 4 && IsContinuation(bs[1]) && IsContinuation(bs[2]) && IsContinuation(bs[3]) then
        var v := (bs[0] as int - 0xF0) * 262144 + (bs[1] as int - 0x80) * 4096 + (bs[2] as int - 0x80) * 64 + (bs[3] as int - 0x80);
        if 0x1_0000 <= v < 0x11_0000 then Some(v) else None
      else None
    else None
  }

  /** Decoding the UTF-8 octets of a scalar value gives it back, and the lead octet announces
      the length of the sequence the way decodeURIComponent counts it */
  lemma Utf8RoundTrip(cp: nat)
    requires IsScalar(cp)
    ensures Utf8Decode(Utf8Encode(cp)) == Some(cp)
    ensures var bs := Utf8Encode(cp);
            (|bs| == 1 <==> LeadingOnes(bs[0]) == 0) && (|bs| > 1 ==> LeadingOnes(bs[0]) == |bs|)
  {
    if cp < 0x80 {
    } else if cp < 0x800 {
      Utf8Two(cp);
    } else if cp < 0x1_0000 {
      Utf8Three(cp);
    } else {
      Utf8Four(cp);
    }
  }

  lemma Utf8Two(cp: nat)
    requires 0x80 <= cp < 0x800
    ensures Utf8Decode(Utf8Encode(cp)) == Some(cp) && LeadingOnes(Utf8Encode(cp)[0]) == 2
  {
  }

  lemma Utf8Three(cp: nat)
    requires 0x800 <= cp < 0x1_0000 && IsScalar(cp)
    ensures Utf8Decode(Utf8Encode(cp)) == Some(cp) && LeadingOnes(Utf8Encode(cp)[0]) == 3
  {
    var bs := Utf8Encode(cp);
    assert bs == [0xE0 + cp / 4096, 0x80 + (cp / 64) % 64, 0x80 + cp % 64];
    assert cp / 64 == (cp / 4096) * 64 + (cp / 64) % 64;
    assert cp == (cp / 64) * 64 + cp % 64;
  }

  lemma Utf8Four(cp: nat)
    requires 0x1_0000 <= cp < 0x11_0000
    ensures Utf8Decode(Utf8Encode(cp)) == Some(cp) && LeadingOnes(Utf8Encode(cp)[0]) == 4
  {
    var bs := Utf8Encode(cp);
    assert bs == [0xF0 + cp / 262144, 0x80 + (cp / 4096) % 64, 0x80 + (cp / 64) % 64, 0x80 + cp % 64];
    assert cp / 4096 == (cp / 262144) * 64 + (cp / 4096) % 64;
    assert cp / 64 == (cp / 4096) * 64 + (cp / 64) % 64;
    assert cp == (cp / 64) * 64 + cp % 64;
  }

  /** %XY for one octet, with upper-case digits */
  function EscapeOctet(b: Byte): (e: string)
    ensures |e| == 3 && e[0] == '%' && HexValue(e[1]) == Some(b / 16) && HexValue(e[2]) == Some(b % 16)
  {
    ['%', HexDigit(b / 16), HexDigit(b % 16)]
  }

  /** %XY for each octet */
  function Escapes(bs: seq<Byte>): (r: string)
    ensures |r| == 3 * |bs|
  {
    if bs == [] then [] else EscapeOctet(bs[0]) + Escapes(bs[1..])
  }

  function EncodeChar(c: char): string {
    if IsUnreserved(c) then [c] else Escapes(Utf8Encode(c as nat))
  }

  /** encodeURIComponent: unreserved characters are kept, every other character becomes the
      %XY escapes of its UTF-8 octets, so the result holds only unreserved characters and '%' */
  function EncodeURIComponent(s: string): (r: string)
    ensures |r| >= |s|
    ensures forall i :: 0 <= i < |r| ==> IsUnreserved(r[i]) || r[i] == '%'
  {
    if s == [] then []
    else
      var head := EncodeChar(s[0]);
      assert forall i :: 0 <= i < |head| ==> IsUnreserved(head[i]) || head[i] == '%' by {
        if !IsUnreserved(s[0]) { EscapesAlphabet(Utf8Encode(s[0] as nat)); }
      }
      head + EncodeURIComponent(s[1..])
  }

  lemma {:induction false} EscapesAlphabet(bs: seq<Byte>)
    ensures forall i :: 0 <= i < |Escapes(bs)| ==> IsUnreserved(Escapes(bs)[i]) || Escapes(bs)[i] == '%'
  {
    if bs != [] {
      EscapesAlphabet(bs[1..]);
      var e := Escapes(bs);
      forall i | 0 <= i < |e| ensures IsUnreserved(e[i]) || e[i] == '%' {
        if i >= 3 { assert e[i] == Escapes(bs[1..])[i - 3]; }
      }
    }
  }

  /** The octet that the escape %XY at the head of s stands for */
  function Escape(s: string): (r: Option<Byte>)
  {
    if |s| < 3 || s[0] != '%' then None
    else match (HexValue(s[1]), HexValue(s[2]))
      case (Some(hi), Some(lo)) => Some(hi * 16 + lo)
      case _ => None
  }

  /** count consecutive escapes at the head of s, each a '%' and two hexadecimal digits */
  function Octets(s: string, count: nat): (r: Option<seq<Byte>>)
    ensures r.Some? ==> |r.value| == count && |s| >= 3 * count
  {
    if count == 0 then Some([])
    else match Escape(s)
      case None => None
      case Some(b) =>
        match Octets(s[3..], count - 1)
        case None => None
        case Some(rest) => Some([b] + rest)
  }

  function Prepend(c: char, r: Option<string>): Option<string> {
    match r
    case None => None
    case Some(t) => Some([c] + t)
  }

  /** decodeURIComponent: every escape or run of escapes is replaced by the character whose
      UTF-8 encoding it is; None where decodeURIComponent throws a URIError (a '%' not
      followed by two hexadecimal digits, a lead octet of the form 10xxxxxx or with more
      than four leading 1 bits, a missing continuation escape, an invalid UTF-8 sequence) */
  function DecodeURIComponent(s: string): (r: Option<string>)
    decreases |s|
  {
    if s == [] then Some([])
    else if s[0] != '%' then Prepend(s[0], DecodeURIComponent(s[1..]))
    else match Escape(s)
      case None => None
      case Some(b) =>
        var n := LeadingOnes(b);
        if n == 0 then Prepend(b as char, DecodeURIComponent(s[3..]))
        else if n == 1 || n > 4 then None
        else match Octets(s[3..], n - 1)
          case None => None
          case Some(rest) =>
            match Utf8Decode([b] + rest)
            case None => None
            case Some(v) => Prepend(v as char, DecodeURIComponent(s[3 * n..]))
  }

  /** An encoded run is the first octet's escape followed by the others' */
  lemma EscapeAtHead(bs: seq<Byte>, t: string)
    requires bs != []
    ensures Escapes(bs) + t == EscapeOctet(bs[0]) + (Escapes(bs[1..]) + t)
  {
  }

  /** The escape of an octet reads back as that octet, whatever follows it */
  lemma EscapeOf(b: Byte, rest: string)
    ensures Escape(EscapeOctet(b) + rest) == Some(b)
    ensures (EscapeOctet(b) + rest)[3..] == rest
  {
  }

  lemma {:induction false} OctetsOfEscapes(bs: seq<Byte>, t: string)
    ensures Octets(Escapes(bs) + t, |bs|) == Some(bs)
  {
    if bs != [] {
      EscapeAtHead(bs, t);
      EscapeOf(bs[0], Escapes(bs[1..]) + t);
      OctetsOfEscapes(bs[1..], t);
      assert [bs[0]] + bs[1..] == bs;
    }
  }

  /** Decoding the encoding of one character, followed by anything, yields that character
      followed by the decoding of the rest */
  lemma DecodeEncodedChar(c: char, t: string)
    ensures DecodeURIComponent(EncodeChar(c) + t) == Prepend(c, DecodeURIComponent(t))
  {
    var u := EncodeChar(c) + t;
    if IsUnreserved(c) {
      assert u[0] == c && u[1..] == t;
    } else {
      DecodeEscapedChar(c, t);
    }
  }

  lemma DecodeEscapedChar(c: char, t: string)
    requires !IsUnreserved(c)
    ensures DecodeURIComponent(Escapes(Utf8Encode(c as nat)) + t) == Prepend(c, DecodeURIComponent(t))
  {
    var bs := Utf8Encode(c as nat);
    Utf8RoundTrip(c as nat);
    if LeadingOnes(bs[0]) == 0 {
      DecodeEscapedSingle(c, t);
    } else {
      DecodeEscapedMulti(c, t);
    }
  }

  lemma DecodeEscapedSingle(c: char, t: string)
    requires !IsUnreserved(c) && LeadingOnes(Utf8Encode(c as nat)[0]) == 0
    ensures DecodeURIComponent(Escapes(Utf8Encode(c as nat)) + t) == Prepend(c, DecodeURIComponent(t))
  {
    var bs := Utf8Encode(c as nat);
    Utf8RoundTrip(c as nat);
    EscapeAtHead(bs, t);
    EscapeOf(bs[0], Escapes(bs[1..]) + t);
    assert |bs| == 1;
    assert bs[0] as char == c;
  }

  lemma DecodeEscapedMulti(c: char, t: string)
    requires !IsUnreserved(c) && LeadingOnes(Utf8Encode(c as nat)[0]) != 0
    ensures DecodeURIComponent(Escapes(Utf8Encode(c as nat)) + t) == Prepend(c, DecodeURIComponent(t))
  {
    var bs := Utf8Encode(c as nat);
    var u := Escapes(bs) + t;
    Utf8RoundTrip(c as nat);
    EscapeAtHead(bs, t);
    EscapeOf(bs[0], Escapes(bs[1..]) + t);
    var n := LeadingOnes(bs[0]);
    OctetsOfEscapes(bs[1..], t);
    assert [bs[0]] + bs[1..] == bs;
    assert u[3 * n..] == t;
  }

  /** decodeURIComponent(encodeURIComponent(s)) recovers s for every string */
  lemma {:induction false} DecodeEncode(s: string)
    ensures DecodeURIComponent(EncodeURIComponent(s)) == Some(s)
  {
    if s != [] {
      DecodeEncode(s[1..]);
      DecodeEncodedChar(s[0], EncodeURIComponent(s[1..]));
      assert [s[0]] + s[1..] == s;
    }
  }

  /** Hence encodeURIComponent never maps two strings to the same text */
  lemma EncodeInjective(s: string, t: string)
    requires EncodeURIComponent(s) == EncodeURIComponent(t)
    ensures s == t
  {
    DecodeEncode(s);
    DecodeEncode(t);
  }

  /** A string without '%' decodes to itself */
  lemma {:induction false} DecodePlain(s: string)
    requires forall i :: 0 <= i < |s| ==> s[i] != '%'
    ensures DecodeURIComponent(s) == Some(s)
  {
    if s != [] {
      DecodePlain(s[1..]);
      assert [s[0]] + s[1..] == s;
    }
  }

  /** Malformed input throws: a lone '%', a truncated three-octet sequence, an overlong
      two-octet form of U+0000, and an encoded surrogate */
  lemma DecodeRejects()
    ensures DecodeURIComponent("%") == None
    ensures DecodeURIComponent("%E2%82") == None
    ensures DecodeURIComponent("%C0%80") == None
    ensures DecodeURIComponent("%ED%A0%80") == None
    ensures DecodeURIComponent("%zz") == None
  {
    TruncatedRejected();
    OverlongRejected();
    SurrogateRejected();
  }

  lemma TruncatedRejected()
    ensures DecodeURIComponent("%E2%82") == None
  {
    assert Escape("%E2%82") == Some(0xE2);
    assert Octets("%82", 2) == None;
  }

  lemma OverlongRejected()
    ensures DecodeURIComponent("%C0%80") == None
  {
    assert Escape("%C0%80") == Some(0xC0);
    assert Escape("%80") == Some(0x80);
    OctetsOfEscapes([0x80], []);
    assert Escapes([0x80]) + [] == "%80";
  }

  lemma SurrogateRejected()
    ensures DecodeURIComponent("%ED%A0%80") == None
  {
    assert Escape("%ED%A0%80") == Some(0xED);
    assert Escape("%A0%80") == Some(0xA0);
    assert Escape("%80") == Some(0x80);
    assert ("%ED%A0%80")[3..] == "%A0%80";
    OctetsOfEscapes([0xA0, 0x80], []);
    assert Escapes([0xA0, 0x80]) + [] == "%A0%80";
  }

  /** A space and a non-ASCII letter are escaped as their UTF-8 octets */
  lemma EncodeExample()
    ensures EncodeURIComponent("a b") == "a%20b"
    ensures EncodeURIComponent("\U{E9}") == "%C3%A9"
  {
    assert Utf8Encode(0xE9) == [0xC3, 0xA9];
    assert Escapes([0xC3, 0xA9]) == "%C3%A9";
  }
}
