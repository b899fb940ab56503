/** The fallback loops of TextEncoder.encode and TextDecoder.decode in polyfill.js, on UTF-16
    code units and bytes. Shifts and masks of non-negative numbers are written as division and
    remainder. */
module Utf8 {
  import opened LittleEndian
  import opened Wrappers

  type Units = seq<uint16>
  type Bytes = seq<byte>

  predicate High(u: uint16) {
    0xD800 <= u <= 0xDBFF
  }

  predicate Low(u: uint16) {
    0xDC00 <= u <= 0xDFFF
  }

  // ---------------------------------------------------------------- encoder

  /** What the encoder computes from a high surrogate and whatever unit follows it; with
      nothing behind it the arithmetic is NaN, which the shifts read as 0. */
  function PairCode(s: Units): (cp: nat)
    requires s != [] && High(s[0])
    ensures cp < 0x11_2400
  {
    if |s| == 1 then 0 else
    var hi: int, lo: int := s[0], s[1];
    (hi - 0xD800) * 0x400 + (lo - 0xDC00) + 0x1_0000
  }

  function Octets4(cp: nat): (b: Bytes)
    requires cp < 0x20_0000
  {
    [0xF0 + cp / 0x4_0000, 0x80 + cp / 0x1000 % 0x40, 0x80 + cp / 0x40 % 0x40, 0x80 + cp % 0x40]
  }

  function Octets3(u: nat): (b: Bytes)
    requires u < 0x1_0000
  {
    [0xE0 + u / 0x1000, 0x80 + u / 0x40 % 0x40, 0x80 + u % 0x40]
  }

  function Octets2(u: nat): (b: Bytes)
    requires u < 0x800
  {
    [0xC0 + u / 0x40, 0x80 + u % 0x40]
  }

  /** Units the encoder consumes at the front of `s`, and the bytes it pushes for them. */
  function Taken(s: Units): (n: nat)
    requires s != []
    ensures 1 <= n <= |s|
  {
    if High(s[0]) && |s| > 1 then 2 else 1
  }

  function Pushed(s: Units): (b: Bytes)
    requires s != []
    ensures 1 <= |b| <= 4
  {
    var u := s[0];
    if u < 0x80 then [u]
    else if u < 0x800 then Octets2(u)
    else if High(u) then Octets4(PairCode(s))
    else Octets3(u)
  }

  function Encode(s: Units): Bytes {
    if s == [] then [] else Pushed(s) + Encode(s[Taken(s)..])
  }

  /** One turn of the loop of `encode`: the bytes it pushes and the next index. */
  method EncodeUnit(str: Units, i: nat) returns (bytes: Bytes, next: nat)
    requires i < |str|
    ensures bytes == Pushed(str[i..]) && next == i + Taken(str[i..])
  {
    var code: int := str[i];
    next := i + 1;
    if code < 0x80 {
      bytes := [code];
    } else if code < 0x800 {
      bytes := [0xC0 + code / 0x40, 0x80 + code % 0x40];
    } else if 0xD800 <= code <= 0xDBFF {
      var cp := 0;
      if next < |str| {
        var lo: int := str[next];
        cp := (code - 0xD800) * 0x400 + (lo - 0xDC00) + 0x1_0000;
        next := next + 1;
      }
      assert cp == PairCode(str[i..]);
      bytes := [0xF0 + cp / 0x4_0000, 0x80 + cp / 0x1000 % 0x40, 0x80 + cp / 0x40 % 0x40, 0x80 + cp % 0x40];
    } else {
      bytes := [0xE0 + code / 0x1000, 0x80 + code / 0x40 % 0x40, 0x80 + code % 0x40];
    }
  }

  /** The loop of `encode`, with its index and its growing array. */
  method EncodeLoop(str: Units) returns (bytes: Bytes)
    ensures bytes == Encode(str)
  {
    bytes := [];
    var i := 0;
    while i < |str|
      invariant 0 <= i <= |str| && bytes + Encode(str[i..]) == Encode(str)
    {
      EncodeStep(str, i, bytes);
      var b;
      b, i := EncodeUnit(str, i);
      bytes := bytes + b;
    }
    assert str[i..] == [];
  }

  lemma EncodeStep(str: Units, i: nat, bytes: Bytes)
    requires i < |str|
    ensures var rest := str[i..];
      i + Taken(rest) <= |str| && bytes + Encode(rest) == bytes + Pushed(rest) + Encode(str[i + Taken(rest)..])
  {
    var rest := str[i..];
    assert rest[Taken(rest)..] == str[i + Taken(rest)..];
    assert bytes + (Pushed(rest) + Encode(rest[Taken(rest)..])) == bytes + Pushed(rest) + Encode(rest[Taken(rest)..]);
  }

  // ---------------------------------------------------------------- decoder

  /** A byte past the end is undefined, which a mask reads as 0. */
  function ByteAt(b: Bytes, i: nat): byte {
    if i < |b| then b[i] else 0
  }

  /** Bytes the decoder's index moves over for a lead byte. */
  function Length(lead: byte): nat {
    if lead < 0x80 then 1 else if lead < 0xE0 then 2 else if lead < 0xF0 then 3 else 4
  }

  /** The number it assembles. */
  function Value(b: Bytes): (v: nat)
    requires b != []
    ensures v < 0x20_0000 && (b[0] < 0xF0 ==> v < 0x1_0000)
  {
    var lead := b[0];
    if lead < 0x80 then lead
    else if lead < 0xE0 then lead % 0x20 * 0x40 + ByteAt(b, 1) % 0x40
    else if lead < 0xF0 then lead % 0x10 * 0x1000 + ByteAt(b, 1) % 0x40 * 0x40 + ByteAt(b, 2) % 0x40
    else lead % 8 * 0x4_0000 + ByteAt(b, 1) % 0x40 * 0x1000 + ByteAt(b, 2) % 0x40 * 0x40 + ByteAt(b, 3) % 0x40
  }

  /** `String.fromCodePoint`: `None` is its RangeError. Up to 0xFFFF this is also
      `String.fromCharCode`. */
  function UnitsOf(cp: nat): Option<Units> {
    if cp < 0x1_0000 then Some([cp])
    else if cp <= 0x10_FFFF then Some([0xD800 + (cp - 0x1_0000) / 0x400, 0xDC00 + (cp - 0x1_0000) % 0x400])
    else None
  }

  function Min(a: nat, b: nat): nat {
    if a < b then a else b
  }

  function Before(a: Option<Units>, b: Option<Units>): Option<Units> {
    if a.Some? && b.Some? then Some(a.value + b.value) else None
  }

  function Decode(b: Bytes): Option<Units> {
    if b == [] then Some([]) else Before(UnitsOf(Value(b)), Decode(b[Min(Length(b[0]), |b|)..]))
  }

  /** One turn of the loop of `decode`: the number it assembles and the next index. */
  method DecodeChar(bytes: Bytes, i: nat) returns (cp: nat, next: nat)
    requires i < |bytes|
    ensures cp == Value(bytes[i..]) && next == i + Length(bytes[i])
  {
    var lead: int, b1: int, b2: int, b3: int := bytes[i], ByteAt(bytes, i + 1), ByteAt(bytes, i + 2), ByteAt(bytes, i + 3);
    var rest := bytes[i..];
    assert ByteAt(rest, 1) == b1 && ByteAt(rest, 2) == b2 && ByteAt(rest, 3) == b3;
    if lead < 0x80 {
      cp, next := lead, i + 1;
    } else if lead < 0xE0 {
      cp, next := lead % 0x20 * 0x40 + b1 % 0x40, i + 2;
    } else if lead < 0xF0 {
      cp, next := lead % 0x10 * 0x1000 + b1 % 0x40 * 0x40 + b2 % 0x40, i + 3;
    } else {
      cp, next := lead % 8 * 0x4_0000 + b1 % 0x40 * 0x1000 + b2 % 0x40 * 0x40 + b3 % 0x40, i + 4;
    }
  }

  /** The loop of `decode`; `ok` is false after the RangeError. */
  method DecodeLoop(bytes: Bytes) returns (ok: bool, str: Units)
    ensures Decode(bytes) == if ok then Some(str) else None
  {
    str := [];
    var i := 0;
    DecodeAll(bytes);
    while i < |bytes|
      invariant Before(Some(str), Decode(bytes[Min(i, |bytes|)..])) == Decode(bytes)
      decreases |bytes| - i
    {
      DecodeStep(bytes, i, str);
      var cp;
      cp, i := DecodeChar(bytes, i);
      if cp > 0x10_FFFF {
        return false, [];
      }
      str := str + UnitsOf(cp).value;
    }
    DecodeEnd(bytes, str);
    ok := true;
  }

  lemma DecodeAll(bytes: Bytes)
    ensures Before(Some([]), Decode(bytes[Min(0, |bytes|)..])) == Decode(bytes)
  {
    assert bytes[0..] == bytes;
    if Decode(bytes).Some? {
      assert [] + Decode(bytes).value == Decode(bytes).value;
    }
  }

  lemma DecodeEnd(bytes: Bytes, str: Units)
    ensures Before(Some(str), Decode(bytes[|bytes|..])) == Some(str)
  {
    assert str + [] == str;
  }

  lemma DecodeStep(bytes: Bytes, i: nat, str: Units)
    requires i < |bytes|
    ensures Before(Some(str), Decode(bytes[i..]))
         == Before(Before(Some(str), UnitsOf(Value(bytes[i..]))), Decode(bytes[Min(i + Length(bytes[i]), |bytes|)..]))
  {
    var rest := bytes[i..];
    var next := Min(Length(rest[0]), |rest|);
    assert rest[next..] == bytes[Min(i + Length(bytes[i]), |bytes|)..];
    BeforeAssoc(Some(str), UnitsOf(Value(rest)), Decode(rest[next..]));
  }

  lemma BeforeAssoc(a: Option<Units>, b: Option<Units>, c: Option<Units>)
    ensures Before(a, Before(b, c)) == Before(Before(a, b), c)
  {
    if a.Some? && b.Some? && c.Some? {
      assert a.value + (b.value + c.value) == a.value + b.value + c.value;
    }
  }

  // ---------------------------------------------------------------- there and back

  lemma Value2(u: nat, rest: Bytes)
    requires 0x80 <= u < 0x800
    ensures Value(Octets2(u) + rest) == u && Length(Octets2(u)[0]) == 2
  {
  }

  lemma Digits3(u: nat)
    requires u < 0x1_0000
    ensures u / 0x1000 < 0x10 && u / 0x1000 * 0x1000 + u / 0x40 % 0x40 * 0x40 + u % 0x40 == u
  {
    var q := u / 0x40;
    assert q / 0x40 == u / 0x1000;
  }

  lemma Masked(x: nat)
    requires x < 0x40
    ensures (0x80 + x) % 0x40 == x
  {
  }

  lemma Value3(u: nat, rest: Bytes)
    requires u < 0x1_0000
    ensures Value(Octets3(u) + rest) == u && Length(Octets3(u)[0]) == 3
  {
    Digits3(u);
    Masked(u / 0x40 % 0x40);
    Masked(u % 0x40);
    var b := Octets3(u) + rest;
    assert b[0] == 0xE0 + u / 0x1000 && b[0] % 0x10 == u / 0x1000;
    assert ByteAt(b, 1) == 0x80 + u / 0x40 % 0x40 && ByteAt(b, 2) == 0x80 + u % 0x40;
  }

  lemma Digits4(cp: nat)
    requires cp < 0x20_0000
    ensures cp / 0x4_0000 < 8
    ensures cp / 0x4_0000 * 0x4_0000 + cp / 0x1000 % 0x40 * 0x1000 + cp / 0x40 % 0x40 * 0x40 + cp % 0x40 == cp
  {
    var q := cp / 0x40;
    var r := q / 0x40;
    assert r == cp / 0x1000 && r / 0x40 == cp / 0x4_0000;
  }

  lemma Value4(cp: nat, rest: Bytes)
    requires cp < 0x20_0000
    ensures Value(Octets4(cp) + rest) == cp && Length(Octets4(cp)[0]) == 4
  {
    Digits4(cp);
    Masked(cp / 0x1000 % 0x40);
    Masked(cp / 0x40 % 0x40);
    Masked(cp % 0x40);
    var b := Octets4(cp) + rest;
    assert b[0] % 8 == cp / 0x4_0000;
    assert ByteAt(b, 1) == 0x80 + cp / 0x1000 % 0x40 && ByteAt(b, 2) == 0x80 + cp / 0x40 % 0x40 && ByteAt(b, 3) == 0x80 + cp % 0x40;
  }

  /** Surrogates are paired as far as the encoder can tell: every high one has a low one behind
      it. A low one may stand alone. */
  predicate HighsPaired(s: Units) {
    forall i :: 0 <= i < |s| && High(s[i]) ==> i + 1 < |s| && Low(s[i + 1])
  }

  /** The number the decoder reads back from what the encoder pushed. */
  function Through(s: Units): nat
    requires s != []
  {
    if High(s[0]) then PairCode(s) else s[0]
  }

  lemma ValueOfPushed(s: Units, rest: Bytes)
    requires s != []
    ensures Value(Pushed(s) + rest) == Through(s) && Length(Pushed(s)[0]) == |Pushed(s)|
  {
    var u := s[0];
    if u < 0x80 {
    } else if u < 0x800 {
      Value2(u, rest);
    } else if High(u) {
      Value4(PairCode(s), rest);
    } else {
      Value3(u, rest);
    }
  }

  /** The decoder reads the encoder's output item by item. */
  lemma DecodePushed(s: Units)
    requires s != []
    ensures Decode(Encode(s)) == Before(UnitsOf(Through(s)), Decode(Encode(s[Taken(s)..])))
  {
    var b, rest := Pushed(s), Encode(s[Taken(s)..]);
    ValueOfPushed(s, rest);
    assert (b + rest)[0] == b[0] && (b + rest)[|b|..] == rest;
  }

  /** No item comes back longer than it went in, and only an item without a stray high
      surrogate comes back as it was. */
  lemma ItemBack(s: Units)
    requires s != []
    ensures HighsPaired(s[..Taken(s)]) <==> UnitsOf(Through(s)) == Some(s[..Taken(s)])
    ensures UnitsOf(Through(s)).Some? ==> |UnitsOf(Through(s)).value| <= Taken(s)
  {
    var u := s[0];
    var item := s[..Taken(s)];
    if High(u) {
      assert item[0] == u;
      if |s| > 1 {
        assert item == [u, s[1]];
        PairBack(u, s[1]);
      }
    } else {
      assert item == [u];
    }
  }

  lemma PairBack(hi: uint16, lo: uint16)
    requires High(hi)
    ensures UnitsOf(PairCode([hi, lo])) == Some([hi, lo]) <==> Low(lo)
    ensures UnitsOf(PairCode([hi, lo])).Some? ==> |UnitsOf(PairCode([hi, lo])).value| <= 2
  {
  }

  lemma PairedParts(s: Units)
    requires s != []
    ensures HighsPaired(s) <==> HighsPaired(s[..Taken(s)]) && HighsPaired(s[Taken(s)..])
  {
    var n := Taken(s);
    var item, rest := s[..n], s[n..];
    assert forall i :: 0 <= i < |rest| ==> rest[i] == s[n + i];
    if HighsPaired(item) && HighsPaired(rest) {
      forall i | 0 <= i < |s| && High(s[i])
        ensures i + 1 < |s| && Low(s[i + 1])
      {
        if i < n {
          assert High(item[i]);
        } else {
          assert High(rest[i - n]);
        }
      }
    }
    if HighsPaired(s) {
      forall i | 0 <= i < n && High(item[i])
        ensures i + 1 < n && Low(item[i + 1])
      {
        assert High(s[i]);
      }
    }
  }

  lemma SplitEqual(a: Units, b: Units, x: Units, y: Units)
    requires a + b == x + y && |a| <= |x| && |b| <= |y|
    ensures a == x && b == y
  {
    assert |a| == |x|;
    assert a == (a + b)[..|a|] && b == (a + b)[|a|..];
    assert x == (x + y)[..|x|] && y == (x + y)[|x|..];
  }

  /** Decoding what was encoded gives the string back exactly when every high surrogate has a
      low one behind it. Otherwise the result is different, or a RangeError; it is never
      longer. */
  lemma {:induction false} RoundTripIff(s: Units)
    ensures Decode(Encode(s)) == Some(s) <==> HighsPaired(s)
    ensures Decode(Encode(s)).Some? ==> |Decode(Encode(s)).value| <= |s|
    decreases |s|
  {
    if s != [] {
      var n := Taken(s);
      var item, rest := s[..n], s[n..];
      RoundTripIff(rest);
      DecodePushed(s);
      ItemBack(s);
      PairedParts(s);
      assert s == item + rest;
      var a, b := UnitsOf(Through(s)), Decode(Encode(rest));
      if Decode(Encode(s)) == Some(s) {
        SplitEqual(a.value, b.value, item, rest);
      }
    }
  }

  // ---------------------------------------------------------------- section 3 of RFC 3629

  /** A Unicode scalar value: a code point that is no surrogate. */
  predicate Scalar(c: nat) {
    c <= 0x10_FFFF && !(0xD800 <= c <= 0xDFFF)
  }

  function OctetCount(c: nat): (n: nat)
    ensures 1 <= n <= 4
  {
    if c <= 0x7F then 1 else if c <= 0x7FF then 2 else if c <= 0xFFFF then 3 else 4
  }

  /** The fixed bits of the first octet, and the end of its range. */
  function LeadBits(n: nat): byte {
    if n == 1 then 0 else if n == 2 then 0xC0 else if n == 3 then 0xE0 else 0xF0
  }

  function LeadLimit(n: nat): nat {
    if n == 1 then 0x80 else if n == 2 then 0xE0 else if n == 3 then 0xF0 else 0xF8
  }

  /** The free bits of an octet sequence, six from each octet after the first. */
  function FreeBits(b: Bytes, lead: byte): int
    requires b != []
  {
    if |b| == 1 then (b[0] as int) - lead
    else FreeBits(b[..|b| - 1], lead) * 0x40 + ((b[|b| - 1] as int) - 0x80)
  }

  /** `b` is the octet sequence of the code point `c`. */
  predicate IsOctets(b: Bytes, c: nat) {
    var n := OctetCount(c);
    && |b| == n && LeadBits(n) <= b[0] < LeadLimit(n) && (forall i :: 1 <= i < n ==> 0x80 <= b[i] < 0xC0)
    && FreeBits(b, LeadBits(n)) == c
  }

  /** `b` is the UTF-8 form of a sequence of code points. */
  predicate IsUtf8(b: Bytes, cs: seq<nat>) {
    if cs == [] then b == [] else
    var n := OctetCount(cs[0]);
    n <= |b| && IsOctets(b[..n], cs[0]) && IsUtf8(b[n..], cs[1..])
  }

  /** The UTF-16 form of a sequence of scalar values. */
  function Utf16(cs: seq<nat>): Units
    requires forall i :: 0 <= i < |cs| ==> Scalar(cs[i])
  {
    if cs == [] then [] else
    assert Scalar(cs[0]);
    UnitsOf(cs[0]).value + Utf16(cs[1..])
  }

  lemma FreeSnoc(b: Bytes, x: byte, lead: byte)
    requires b != []
    ensures FreeBits(b + [x], lead) == FreeBits(b, lead) * 0x40 + ((x as int) - 0x80)
  {
    assert (b + [x])[..|b + [x]| - 1] == b;
  }

  lemma OctetsOf2(c: nat)
    requires 0x80 <= c < 0x800
    ensures IsOctets(Octets2(c), c)
  {
    FreeSnoc([0xC0 + c / 0x40], 0x80 + c % 0x40, 0xC0);
    assert Octets2(c) == [0xC0 + c / 0x40] + [0x80 + c % 0x40];
  }

  lemma OctetsOf3(c: nat)
    requires 0x800 <= c < 0x1_0000
    ensures IsOctets(Octets3(c), c)
  {
    var a, x, y := 0xE0 + c / 0x1000, 0x80 + c / 0x40 % 0x40, 0x80 + c % 0x40;
    FreeSnoc([a], x, 0xE0);
    FreeSnoc([a] + [x], y, 0xE0);
    assert Octets3(c) == [a] + [x] + [y];
    assert c / 0x40 / 0x40 == c / 0x1000;
  }

  lemma FreeBits4(c: nat)
    requires c < 0x20_0000
    ensures FreeBits(Octets4(c), 0xF0) == c
  {
    var a, x, y, z := 0xF0 + c / 0x4_0000, 0x80 + c / 0x1000 % 0x40, 0x80 + c / 0x40 % 0x40, 0x80 + c % 0x40;
    FreeSnoc([a], x, 0xF0);
    FreeSnoc([a] + [x], y, 0xF0);
    FreeSnoc([a] + [x] + [y], z, 0xF0);
    assert Octets4(c) == [a] + [x] + [y] + [z];
    assert c / 0x40 / 0x40 == c / 0x1000 && c / 0x1000 / 0x40 == c / 0x4_0000;
  }

  lemma OctetsOf4(c: nat)
    requires 0x1_0000 <= c <= 0x10_FFFF
    ensures IsOctets(Octets4(c), c)
  {
    FreeBits4(c);
  }

  // ---------------------------------------------------------------- what has no UTF-8 form

  /** Strings whose high surrogates are paired are encoded apart from what follows them. */
  lemma {:induction false} EncodeAppend(a: Units, b: Units)
    requires HighsPaired(a)
    ensures Encode(a + b) == Encode(a) + Encode(b)
    decreases |a|
  {
    if a == [] {
      assert a + b == b;
    } else {
      var n := Taken(a);
      PairedParts(a);
      EncodeAppend(a[n..], b);
      EncodeFront(a, b);
      Assoc(Pushed(a), Encode(a[n..]), Encode(b));
    }
  }

  lemma TakenAlone(a: Units, b: Units)
    requires a != [] && HighsPaired(a)
    ensures Taken(a + b) == Taken(a) && Pushed(a + b) == Pushed(a)
  {
    assert High(a[0]) ==> (a + b)[1] == a[1];
  }

  lemma EncodeFront(a: Units, b: Units)
    requires a != [] && HighsPaired(a)
    ensures Encode(a + b) == Pushed(a) + Encode(a[Taken(a)..] + b)
  {
    TakenAlone(a, b);
    assert (a + b)[Taken(a)..] == a[Taken(a)..] + b;
  }

  /** Four octets, and the number that their free bits spell. */
  predicate Spells(b: Bytes, c: int) {
    |b| == 4 && 0xF0 <= b[0] < 0xF8 && (forall i :: 1 <= i < 4 ==> 0x80 <= b[i] < 0xC0) && FreeBits(b, 0xF0) == c
  }

  /** At the first high surrogate without a low one behind it the encoder takes whatever unit
      comes next for one, and 0 for the whole pair if the string ends there. */
  lemma UnpairedHigh(a: Units, hi: uint16, rest: Units) returns (b: Bytes)
    requires HighsPaired(a) && High(hi) && (rest == [] || !Low(rest[0]))
    ensures Encode(a + ([hi] + rest)) == Encode(a) + (b + Encode(if rest == [] then [] else rest[1..]))
    ensures Spells(b, if rest == [] then 0 else 0x1_0000 + ((hi as int) - 0xD800) * 0x400 + ((rest[0] as int) - 0xDC00))
  {
    var s := [hi] + rest;
    b := Pushed(s);
    EncodeAppend(a, s);
    FreeBits4(PairCode(s));
    assert s[Taken(s)..] == if rest == [] then [] else rest[1..];
  }

  /** A character that the end of the input cuts off is decoded as if zero bytes followed. */
  lemma CutCharacter(b: Bytes)
    requires b != [] && |b| < Length(b[0])
    ensures Decode(b) == Decode(b + seq(Length(b[0]) - |b|, _ => 0 as byte))
  {
    var zeros := seq(Length(b[0]) - |b|, _ => 0 as byte);
    var w := b + zeros;
    assert ByteAt(w, 1) == ByteAt(b, 1) && ByteAt(w, 2) == ByteAt(b, 2) && ByteAt(w, 3) == ByteAt(b, 3);
    assert Value(w) == Value(b) && w[|w|..] == [] == b[|b|..];
  }

  /** A character starts at offset `i`. */
  predicate StartsAt(b: Bytes, i: nat)
    decreases |b|
  {
    b != [] && (i == 0 || (Length(b[0]) <= i && Length(b[0]) <= |b| && StartsAt(b[Length(b[0])..], i - Length(b[0]))))
  }

  /** The octets at `i` have the lead and the bits of a number above 0x10FFFF. */
  predicate TooLarge(b: Bytes, i: nat)
    requires i < |b|
  {
    b[i] >= 0xF0 && (b[i] % 8 > 4 || (b[i] % 8 == 4 && ByteAt(b, i + 1) % 0x40 >= 0x10))
  }

  lemma {:induction false} StartsInside(b: Bytes, i: nat)
    requires StartsAt(b, i)
    ensures i < |b|
    decreases |b|
  {
    if i > 0 {
      StartsInside(b[Length(b[0])..], i - Length(b[0]));
    }
  }

  ghost predicate FailsAt(b: Bytes, i: nat) {
    StartsAt(b, i) && i < |b| && TooLarge(b, i)
  }

  lemma ValueTooLarge(b: Bytes)
    requires b != []
    ensures Value(b) > 0x10_FFFF <==> TooLarge(b, 0)
  {
  }

  lemma FailsLater(b: Bytes, i: nat)
    requires b != [] && Length(b[0]) <= |b|
    ensures FailsAt(b[Length(b[0])..], i) <==> FailsAt(b, i + Length(b[0]))
  {
    var rest := b[Length(b[0])..];
    if i < |rest| {
      assert rest[i] == b[i + Length(b[0])] && ByteAt(rest, i + 1) == ByteAt(b, i + Length(b[0]) + 1);
    }
  }

  /** On every byte string: the decoder throws its RangeError if and only if some character in
      it has the bits of a number above 0x10FFFF. */
  lemma {:induction false} ThrowsIff(b: Bytes)
    ensures Decode(b).None? <==> exists i :: FailsAt(b, i)
    decreases |b|
  {
    if b != [] {
      var n := Length(b[0]);
      ValueTooLarge(b);
      if TooLarge(b, 0) {
        assert FailsAt(b, 0);
      } else if n < |b| {
        ThrowsIff(b[n..]);
        ThrowsOnlyLater(b);
      } else {
        assert Decode([]) == Some([]);
        forall i | StartsAt(b, i)
          ensures i == 0
        {
          StartsInside(b, i);
        }
      }
    }
  }

  lemma ThrowsOnlyLater(b: Bytes)
    requires b != [] && Length(b[0]) < |b| && !TooLarge(b, 0)
    ensures (exists i :: FailsAt(b, i)) <==> exists i :: FailsAt(b[Length(b[0])..], i)
  {
    var n := Length(b[0]);
    if i :| FailsAt(b, i) {
      FailsLater(b, i - n);
    }
    if i :| FailsAt(b[n..], i) {
      FailsLater(b, i);
    }
  }

  // ---------------------------------------------------------------- UTF-8

  /** The encoder takes a scalar value's units together and pushes its octet sequence. */
  lemma PushesOctets(c: nat, more: Units)
    requires Scalar(c)
    ensures UnitsOf(c).Some? && UnitsOf(c).value != []
    ensures Taken(UnitsOf(c).value + more) == |UnitsOf(c).value| && IsOctets(Pushed(UnitsOf(c).value + more), c)
  {
    var s := UnitsOf(c).value + more;
    if c < 0x80 {
    } else if c < 0x800 {
      OctetsOf2(c);
    } else if c < 0x1_0000 {
      OctetsOf3(c);
    } else {
      assert PairCode(s) == c;
      OctetsOf4(c);
    }
  }

  /** For every sequence of scalar values, the encoder turns its UTF-16 form into its UTF-8
      form. */
  lemma {:induction false} EncodesToUtf8(cs: seq<nat>)
    requires forall i :: 0 <= i < |cs| ==> Scalar(cs[i])
    ensures IsUtf8(Encode(Utf16(cs)), cs)
  {
    if cs != [] {
      assert Scalar(cs[0]);
      EncodesToUtf8(cs[1..]);
      var first, more := UnitsOf(cs[0]).value, Utf16(cs[1..]);
      PushesOctets(cs[0], more);
      var b := Pushed(first + more);
      assert (first + more)[|first|..] == more;
      assert (b + Encode(more))[..|b|] == b && (b + Encode(more))[|b|..] == Encode(more);
    }
  }

  lemma {:induction false} FreeBitsUnique(a: Bytes, b: Bytes, lead: byte)
    requires |a| == |b| > 0 && FreeBits(a, lead) == FreeBits(b, lead)
    requires forall i :: 1 <= i < |a| ==> 0x80 <= a[i] < 0xC0 && 0x80 <= b[i] < 0xC0
    ensures a == b
  {
    if |a| > 1 {
      var a', b' := a[..|a| - 1], b[..|b| - 1];
      assert a[|a| - 1] == b[|b| - 1];
      FreeBitsUnique(a', b', lead);
      assert a == a' + [a[|a| - 1]] && b == b' + [b[|b| - 1]];
    }
  }

  /** The UTF-8 form is unique. */
  lemma {:induction false} Utf8Unique(a: Bytes, b: Bytes, cs: seq<nat>)
    requires IsUtf8(a, cs) && IsUtf8(b, cs)
    ensures a == b
  {
    if cs != [] {
      var n := OctetCount(cs[0]);
      FreeBitsUnique(a[..n], b[..n], LeadBits(n));
      Utf8Unique(a[n..], b[n..], cs[1..]);
      assert a == a[..n] + a[n..] && b == b[..n] + b[n..];
    }
  }

  /** An octet sequence at the head of `b` tells its length and its number. */
  lemma OneCode(b: Bytes, x: nat, y: nat)
    requires OctetCount(x) <= |b| && OctetCount(y) <= |b| && IsOctets(b[..OctetCount(x)], x) && IsOctets(b[..OctetCount(y)], y)
    ensures x == y
  {
    assert b[..OctetCount(x)][0] == b[0] == b[..OctetCount(y)][0];
  }

  /** A byte string is the UTF-8 form of at most one sequence of numbers. */
  lemma {:induction false} CodesUnique(b: Bytes, xs: seq<nat>, ys: seq<nat>)
    requires IsUtf8(b, xs) && IsUtf8(b, ys)
    ensures xs == ys
  {
    if xs != [] && ys != [] {
      OneCode(b, xs[0], ys[0]);
      CodesUnique(b[OctetCount(xs[0])..], xs[1..], ys[1..]);
      assert xs == [xs[0]] + xs[1..] && ys == [ys[0]] + ys[1..];
    }
  }

  predicate AllScalar(cs: seq<nat>) {
    forall i :: 0 <= i < |cs| ==> Scalar(cs[i])
  }

  /** UTF-8: the octets of scalar values, one after the other. */
  ghost predicate WellFormed(b: Bytes) {
    exists cs :: AllScalar(cs) && IsUtf8(b, cs)
  }

  /** Octets of numbers that may be surrogates are UTF-8 exactly if none is. */
  lemma WellFormedIff(b: Bytes, xs: seq<nat>)
    requires IsUtf8(b, xs)
    ensures WellFormed(b) <==> AllScalar(xs)
  {
    if WellFormed(b) {
      var cs :| AllScalar(cs) && IsUtf8(b, cs);
      CodesUnique(b, xs, cs);
    }
  }

  /** The octets of a scalar value. */
  function Octets(c: nat): (b: Bytes)
    requires Scalar(c)
    ensures IsOctets(b, c)
  {
    PushesOctets(c, []);
    assert UnitsOf(c).value + [] == UnitsOf(c).value;
    Pushed(UnitsOf(c).value)
  }

  lemma {:induction false} Utf16Paired(cs: seq<nat>)
    requires forall i :: 0 <= i < |cs| ==> Scalar(cs[i])
    ensures HighsPaired(Utf16(cs))
  {
    if cs != [] {
      assert Scalar(cs[0]);
      Utf16Paired(cs[1..]);
      var first, more := UnitsOf(cs[0]).value, Utf16(cs[1..]);
      PushesOctets(cs[0], more);
      assert (first + more)[..|first|] == first && (first + more)[|first|..] == more;
      PairedParts(first + more);
    }
  }

  /** The decoder turns every well-formed UTF-8 byte string into the UTF-16 form of its scalar
      values. */
  lemma DecodesUtf8(b: Bytes, cs: seq<nat>)
    requires (forall i :: 0 <= i < |cs| ==> Scalar(cs[i])) && IsUtf8(b, cs)
    ensures Decode(b) == Some(Utf16(cs))
  {
    EncodesToUtf8(cs);
    Utf8Unique(b, Encode(Utf16(cs)), cs);
    Utf16Paired(cs);
    RoundTripIff(Utf16(cs));
  }
}
