/** PKCS#8 wrapping of an RSA private key (src/ext_crypto.c), written backwards from a computed
    size, against a reader of DER (X.690 sections 8.1.3 and 10.1) and of PrivateKeyInfo
    (RFC 5208 section 5). */
module Pkcs8 {
  import opened BigEndian
  import opened LittleEndian
  import opened Wrappers

  type Bytes = seq<byte>

  const TAG_INTEGER: byte := 0x02
  const TAG_OCTETS: byte := 0x04
  const TAG_NULL: byte := 0x05
  const TAG_OID: byte := 0x06
  const TAG_SEQUENCE: byte := 0x30

  /** 2 to the 64: lengths are `size_t`. */
  const SIZE_LIMIT := 0x1_0000_0000_0000_0000

  // ---------------------------------------------------------------- sizes of numbers

  /** Bytes a number needs. */
  function ByteCount(v: nat): nat {
    if v == 0 then 0 else 1 + ByteCount(v / 0x100)
  }

  lemma {:induction false} BeRoundTrip(v: nat)
    ensures BeValue(BeBytes(v, ByteCount(v))) == v
  {
    if v != 0 {
      BeRoundTrip(v / 0x100);
      BeSnoc(BeBytes(v / 0x100, ByteCount(v / 0x100)), v % 0x100);
    }
  }

  lemma {:induction false} BeLead(v: nat)
    requires v != 0
    ensures BeBytes(v, ByteCount(v))[0] != 0
  {
    if v / 0x100 != 0 {
      BeLead(v / 0x100);
    }
  }

  lemma {:induction false} CountBound(v: nat, n: nat)
    requires v < Pow256(n)
    ensures ByteCount(v) <= n
  {
    if v != 0 {
      CountBound(v / 0x100, n - 1);
    }
  }

  lemma SizeBytes(v: nat)
    requires v < SIZE_LIMIT
    ensures ByteCount(v) <= 8
  {
    assert Pow256(4) == 0x100 * (0x100 * (0x100 * (0x100 * Pow256(0))));
    assert Pow256(8) == 0x100 * (0x100 * (0x100 * (0x100 * Pow256(4))));
    CountBound(v, 8);
  }

  // ---------------------------------------------------------------- DER lengths

  function DerLength(len: nat): Bytes
    requires len < SIZE_LIMIT
  {
    SizeBytes(len);
    if len < 128 then [len] else [0x80 + ByteCount(len)] + BeBytes(len, ByteCount(len))
  }

  /** `rsa_der_len_bytes`. */
  method DerLenBytes(size: nat) returns (n: nat)
    requires size < SIZE_LIMIT
    ensures n == |DerLength(size)|
  {
    if size < 128 {
      return 1;
    }
    var len := size;
    n := 1;
    while len != 0
      invariant n + ByteCount(len) == 1 + ByteCount(size)
    {
      n, len := n + 1, len / 0x100;
    }
  }

  /** `rsa_der_write_len`. */
  method DerWriteLen(out: array<byte>, at: nat, len: nat) returns (written: nat)
    requires len < SIZE_LIMIT && at + |DerLength(len)| <= out.Length
    modifies out
    ensures written == |DerLength(len)| && At(out[..], at, DerLength(len))
    ensures forall k :: 0 <= k < out.Length && !(at <= k < at + written) ==> out[k] == old(out[k])
  {
    SizeBytes(len);
    if len < 128 {
      out[at] := len;
      return 1;
    }
    var n, t := 0, len;
    while t != 0
      invariant n + ByteCount(t) == ByteCount(len)
    {
      n, t := n + 1, t / 0x100;
    }
    out[at] := 0x80 + n;
    var i := 0;
    while i < n
      invariant 0 <= i <= n && out[at] == 0x80 + n
      invariant LowBytes(out[..], at + 1, BeBytes(len, n), i)
      invariant forall k :: 0 <= k < out.Length && !(at <= k < at + n + 1) ==> out[k] == old(out[k])
    {
      BeByteAt(len, n, i);
      out[at + n - i] := Shift(len, i) % 0x100;
      i := i + 1;
    }
    written := n + 1;
    AtHead(out[..], at, 0x80 + n, BeBytes(len, n));
  }

  /** The last `i` bytes of `s` stand where they would in a copy of `s` at `pos`. */
  predicate LowBytes(b: Bytes, pos: nat, s: Bytes, i: nat) {
    pos + |s| <= |b| && i <= |s| && forall k {:trigger s[k]} :: |s| - i <= k < |s| ==> b[pos + k] == s[k]
  }

  lemma AtHead(b: Bytes, at: nat, x: byte, s: Bytes)
    requires at < |b| && b[at] == x && LowBytes(b, at + 1, s, |s|)
    ensures At(b, at, [x] + s)
  {
    forall k | 0 <= k < |s| + 1
      ensures b[at + k] == ([x] + s)[k]
    {
      if k > 0 {
        assert b[at + 1 + (k - 1)] == s[k - 1];
      }
    }
  }

  // ---------------------------------------------------------------- the wrapper

  /** rsaEncryption, 1.2.840.113549.1.1.1. */
  const OID: Bytes := [0x2a, 0x86, 0x48, 0x86, 0xf7, 0x0d, 0x01, 0x01, 0x01]

  /** AlgorithmIdentifier: that OID with NULL parameters. */
  const ALGID: Bytes := [0x30, 0x0d, 0x06, 0x09, 0x2a, 0x86, 0x48, 0x86, 0xf7, 0x0d, 0x01, 0x01, 0x01, 0x05, 0x00]

  const VERSION: Bytes := [0x02, 0x01, 0x00]

  function Tlv(tag: byte, content: Bytes): Bytes
    requires |content| < SIZE_LIMIT
  {
    [tag] + DerLength(|content|) + content
  }

  function Inner(key: Bytes): (b: Bytes)
    requires |key| + 64 < SIZE_LIMIT
    ensures |b| < SIZE_LIMIT - 16
  {
    SizeBytes(|key|);
    VERSION + ALGID + Tlv(TAG_OCTETS, key)
  }

  function Wrapped(key: Bytes): Bytes
    requires |key| + 64 < SIZE_LIMIT
  {
    Tlv(TAG_SEQUENCE, Inner(key))
  }

  /** What is written from offset `p` to the end. */
  lemma Behind(b: Bytes, p: nat, x: Bytes, behind: Bytes)
    requires At(b, p, x) && b[p + |x|..] == behind
    ensures b[p..] == x + behind
  {
  }

  /** `p -= n; memcpy(p, x, n)`. */
  method Prepend(out: array<byte>, p: nat, x: Bytes, ghost behind: Bytes) returns (q: nat)
    requires |x| <= p <= out.Length && out[p..] == behind
    modifies out
    ensures q == p - |x| && out[q..] == x + behind
  {
    q := p - |x|;
    Copy(out, q, x);
    assert out[p..] == behind;
    Behind(out[..], q, x, behind);
  }

  /** `p -= rsa_der_len_bytes(len); rsa_der_write_len(p, len)`. */
  method PrependLength(out: array<byte>, p: nat, len: nat, ghost behind: Bytes) returns (q: nat)
    requires len < SIZE_LIMIT && |DerLength(len)| <= p <= out.Length && out[p..] == behind
    modifies out
    ensures q == p - |DerLength(len)| && out[q..] == DerLength(len) + behind
  {
    var n := DerLenBytes(len);
    q := p - n;
    var _ := DerWriteLen(out, q, len);
    assert out[p..] == behind;
    Behind(out[..], q, DerLength(len), behind);
  }

  /** `rsa_pkcs8_wrap`: a cursor that starts behind the last byte and moves down; it lands on
      the start of the buffer. */
  method Pkcs8Wrap(key: Bytes, out: array<byte>) returns (total: nat)
    requires |key| + 64 < SIZE_LIMIT
    modifies out
    ensures |Wrapped(key)| > out.Length ==> total == 0 && out[..] == old(out[..])
    ensures |Wrapped(key)| <= out.Length ==> total == |Wrapped(key)| && out[..] == Wrapped(key) + old(out[total..])
  {
    var keyLen := DerLenBytes(|key|);
    var inner := 3 + |ALGID| + (1 + keyLen) + |key|;
    SizeBytes(|key|);
    var innerLen := DerLenBytes(inner);
    total := 1 + innerLen + inner;
    assert inner == |Inner(key)| && total == |Wrapped(key)|;
    if total > out.Length {
      return 0;
    }
    ghost var rest := out[total..];
    var p := WriteInner(key, out, total, inner);
    p := PrependLength(out, p, inner, Inner(key) + rest);
    p := Prepend(out, p, [0x30], DerLength(inner) + (Inner(key) + rest));
    Assoc(DerLength(inner), Inner(key), rest);
    Assoc([TAG_SEQUENCE], DerLength(inner) + Inner(key), rest);
    Assoc([TAG_SEQUENCE], DerLength(inner), Inner(key));
    assert p == 0 && out[0..] == out[..];
  }

  /** The key octets with their tag and length. */
  method WriteOctets(key: Bytes, out: array<byte>, end: nat) returns (p: nat)
    requires |key| < SIZE_LIMIT && |Tlv(TAG_OCTETS, key)| <= end <= out.Length
    modifies out
    ensures p == end - |Tlv(TAG_OCTETS, key)| && out[p..] == Tlv(TAG_OCTETS, key) + old(out[end..])
  {
    ghost var rest := out[end..];
    p := Prepend(out, end, key, rest);
    p := PrependLength(out, p, |key|, key + rest);
    p := Prepend(out, p, [0x04], DerLength(|key|) + (key + rest));
    Assoc(DerLength(|key|), key, rest);
    Assoc([TAG_OCTETS], DerLength(|key|) + key, rest);
    Assoc([TAG_OCTETS], DerLength(|key|), key);
  }

  /** The algorithm identifier and, before it, the version, byte by byte. */
  method WriteHeader(out: array<byte>, end: nat, ghost behind: Bytes) returns (p: nat)
    requires 18 <= end <= out.Length && out[end..] == behind
    modifies out
    ensures p == end - 18 && out[p..] == VERSION + (ALGID + behind)
  {
    p := Prepend(out, end, ALGID, behind);
    p := Prepend(out, p, [0x00], ALGID + behind);
    p := Prepend(out, p, [0x01], [0x00] + (ALGID + behind));
    p := Prepend(out, p, [0x02], [0x01] + ([0x00] + (ALGID + behind)));
    VersionFirst(ALGID + behind);
  }

  lemma VersionFirst(x: Bytes)
    ensures [0x02] + ([0x01] + ([0x00] + x)) == VERSION + x
  {
  }

  /** The contents of the outer sequence, from the key down to the version. */
  method WriteInner(key: Bytes, out: array<byte>, end: nat, ghost inner: nat) returns (p: nat)
    requires |key| + 64 < SIZE_LIMIT && inner == |Inner(key)| <= end <= out.Length
    modifies out
    ensures p == end - inner && out[p..] == Inner(key) + old(out[end..])
  {
    ghost var rest := out[end..];
    ghost var octets := Tlv(TAG_OCTETS, key);
    p := WriteOctets(key, out, end);
    p := WriteHeader(out, p, octets + rest);
    Assoc(ALGID, octets, rest);
    Assoc(VERSION, ALGID + octets, rest);
    Assoc(VERSION, ALGID, octets);
  }

  // ---------------------------------------------------------------- reading it back

  /** A length read at `p` of `b`, and the offset behind it. */
  datatype Length = Length(len: nat, next: nat)

  /** Sections 8.1.3 and 10.1 of X.690: the short form below 128, otherwise the long form with
      as few octets as possible; the indefinite form is not DER. */
  function ReadLength(b: Bytes, p: nat): Option<Length> {
    if p >= |b| || b[p] == 0x80 || b[p] == 0xFF then None
    else if b[p] < 0x80 then Some(Length(b[p], p + 1))
    else
      var n := b[p] - 0x80;
      if p + 1 + n > |b| then None else
      var len := BeValue(b[p + 1..p + 1 + n]);
      if b[p + 1] == 0 || len < 128 then None else Some(Length(len, p + 1 + n))
  }

  /** An element: its contents, and the offset behind it. */
  datatype Element = Element(content: Bytes, next: nat)

  function ReadTlv(b: Bytes, p: nat, tag: byte): Option<Element> {
    if p >= |b| || b[p] != tag then None else
    match ReadLength(b, p + 1)
    case None => None
    case Some(l) => if l.next + l.len > |b| then None else Some(Element(b[l.next..l.next + l.len], l.next + l.len))
  }

  /** PrivateKeyInfo without attributes: version, the algorithm's OID, and the key octets. */
  datatype KeyInfo = KeyInfo(version: nat, oid: Bytes, key: Bytes)

  function ReadAlgorithm(b: Bytes): Option<Bytes> {
    match ReadTlv(b, 0, TAG_OID)
    case None => None
    case Some(oid) =>
      match ReadTlv(b, oid.next, TAG_NULL)
      case None => None
      case Some(params) => if params.content == [] && params.next == |b| then Some(oid.content) else None
  }

  function ReadFields(b: Bytes): Option<KeyInfo> {
    match ReadTlv(b, 0, TAG_INTEGER)
    case None => None
    case Some(version) =>
      match ReadTlv(b, version.next, TAG_SEQUENCE)
      case None => None
      case Some(alg) =>
        match ReadTlv(b, alg.next, TAG_OCTETS)
        case None => None
        case Some(key) =>
          match ReadAlgorithm(alg.content)
          case None => None
          case Some(oid) =>
            if |version.content| == 1 && key.next == |b| then Some(KeyInfo(BeValue(version.content), oid, key.content)) else None
  }

  function ReadKeyInfo(b: Bytes): Option<KeyInfo> {
    match ReadTlv(b, 0, TAG_SEQUENCE)
    case None => None
    case Some(e) => if e.next == |b| then ReadFields(e.content) else None
  }

  /** The written length reads back, and it is minimal: the reader accepts nothing longer. */
  lemma LengthReads(len: nat, b: Bytes, p: nat)
    requires len < SIZE_LIMIT && At(b, p, DerLength(len))
    ensures ReadLength(b, p) == Some(Length(len, p + |DerLength(len)|))
  {
    SizeBytes(len);
    var d := DerLength(len);
    assert b[p + 0] == d[0];
    if len >= 128 {
      var n := ByteCount(len);
      AtConcat(b, p, [0x80 + n], BeBytes(len, n));
      AtSlice(b, p + 1, BeBytes(len, n));
      BeLead(len);
      assert b[p + 1 + 0] == BeBytes(len, n)[0];
      BeRoundTrip(len);
    }
  }

  lemma TlvLayout(tag: byte, d: Bytes, content: Bytes, b: Bytes, p: nat)
    requires At(b, p, [tag] + d + content)
    ensures p + 1 + |d| + |content| <= |b| && b[p] == tag && At(b, p + 1, d)
    ensures b[p + 1 + |d|..p + 1 + |d| + |content|] == content
  {
    AtConcat(b, p, [tag] + d, content);
    AtConcat(b, p, [tag], d);
    assert b[p + 0] == [tag][0];
    AtSlice(b, p + 1 + |d|, content);
  }

  lemma TlvIs(b: Bytes, p: nat, tag: byte, l: Length)
    requires p < |b| && b[p] == tag && ReadLength(b, p + 1) == Some(l) && l.next + l.len <= |b|
    ensures ReadTlv(b, p, tag) == Some(Element(b[l.next..l.next + l.len], l.next + l.len))
  {
  }

  /** An element written as `whole` reads back. */
  lemma TlvReads(tag: byte, content: Bytes, whole: Bytes, b: Bytes, p: nat)
    requires |content| < SIZE_LIMIT && whole == Tlv(tag, content) && At(b, p, whole)
    ensures ReadTlv(b, p, tag) == Some(Element(content, p + |whole|))
  {
    var d := DerLength(|content|);
    TlvLayout(tag, d, content, b, p);
    LengthReads(|content|, b, p + 1);
    assert |whole| == 1 + |d| + |content|;
    TlvIs(b, p, tag, Length(|content|, p + 1 + |d|));
  }

  lemma SmallTlv(tag: byte, content: Bytes)
    requires |content| < 128
    ensures Tlv(tag, content) == [tag, |content|] + content
  {
  }

  lemma AlgorithmIs()
    ensures Tlv(TAG_OID, OID) == [0x06, 0x09] + OID && Tlv(TAG_NULL, []) == [0x05, 0x00]
    ensures ALGID == Tlv(TAG_SEQUENCE, Tlv(TAG_OID, OID) + Tlv(TAG_NULL, []))
  {
    SmallTlv(TAG_OID, OID);
    SmallTlv(TAG_NULL, []);
    SmallTlv(TAG_SEQUENCE, [0x06, 0x09] + OID + [0x05, 0x00]);
  }

  lemma AlgorithmReads(a: Bytes, n: Bytes)
    requires a == Tlv(TAG_OID, OID) && n == Tlv(TAG_NULL, [])
    ensures ReadAlgorithm(a + n) == Some(OID)
  {
    AtConcat(a + n, 0, a, n);
    TlvReads(TAG_OID, OID, a, a + n, 0);
    TlvReads(TAG_NULL, [], n, a + n, |a|);
  }

  /** Where the three fields stand. */
  lemma FieldsAt(key: Bytes, octets: Bytes)
    requires |key| + 64 < SIZE_LIMIT && octets == Tlv(TAG_OCTETS, key)
    ensures At(Inner(key), 0, VERSION) && At(Inner(key), 3, ALGID) && At(Inner(key), 18, octets)
    ensures |Inner(key)| == 18 + |octets|
  {
    AtConcat(Inner(key), 0, VERSION + ALGID, octets);
    AtConcat(Inner(key), 0, VERSION, ALGID);
  }

  lemma FieldsAre(b: Bytes, version: Element, alg: Element, key: Element)
    requires ReadTlv(b, 0, TAG_INTEGER) == Some(version) && ReadTlv(b, version.next, TAG_SEQUENCE) == Some(alg)
    requires ReadTlv(b, alg.next, TAG_OCTETS) == Some(key) && key.next == |b| && version.content == [0]
    requires ReadAlgorithm(alg.content) == Some(OID)
    ensures ReadFields(b) == Some(KeyInfo(0, OID, key.content))
  {
    assert [0][..0] == [];
  }

  const ALGORITHM: Bytes := [0x06, 0x09] + OID + [0x05, 0x00]

  lemma VersionReads(b: Bytes)
    requires At(b, 0, VERSION)
    ensures ReadTlv(b, 0, TAG_INTEGER) == Some(Element([0], 3))
  {
    SmallTlv(TAG_INTEGER, [0]);
    TlvReads(TAG_INTEGER, [0], VERSION, b, 0);
  }

  lemma AlgidReads(b: Bytes)
    requires At(b, 3, ALGID)
    ensures ReadTlv(b, 3, TAG_SEQUENCE) == Some(Element(ALGORITHM, 18)) && ReadAlgorithm(ALGORITHM) == Some(OID)
  {
    AlgorithmIs();
    AlgorithmReads(Tlv(TAG_OID, OID), Tlv(TAG_NULL, []));
    TlvReads(TAG_SEQUENCE, ALGORITHM, ALGID, b, 3);
  }

  lemma FieldsReadAt(b: Bytes, key: Bytes, octets: Bytes)
    requires |key| < SIZE_LIMIT && octets == Tlv(TAG_OCTETS, key) && |b| == 18 + |octets|
    requires At(b, 0, VERSION) && At(b, 3, ALGID) && At(b, 18, octets)
    ensures ReadFields(b) == Some(KeyInfo(0, OID, key))
  {
    VersionReads(b);
    AlgidReads(b);
    TlvReads(TAG_OCTETS, key, octets, b, 18);
    assert ReadTlv(b, 18, TAG_OCTETS) == Some(Element(key, |b|));
    FieldsAre(b, Element([0], 3), Element(ALGORITHM, 18), Element(key, |b|));
  }

  lemma FieldsRead(key: Bytes)
    requires |key| + 64 < SIZE_LIMIT
    ensures ReadFields(Inner(key)) == Some(KeyInfo(0, OID, key))
  {
    var octets := Tlv(TAG_OCTETS, key);
    FieldsAt(key, octets);
    FieldsReadAt(Inner(key), key, octets);
  }

  /** For every key, of any length, reading the wrapped DER gives version 0, the rsaEncryption
      algorithm and the key's own bytes. */
  lemma WrappedReads(key: Bytes)
    requires |key| + 64 < SIZE_LIMIT
    ensures ReadKeyInfo(Wrapped(key)) == Some(KeyInfo(0, OID, key))
  {
    TlvReads(TAG_SEQUENCE, Inner(key), Wrapped(key), Wrapped(key), 0);
    FieldsRead(key);
  }

  // ---------------------------------------------------------------- the identifier

  /** The numbers of an object identifier after the first octet, base 128 (X.690 section 8.19). */
  function Arcs(b: Bytes, acc: nat): seq<nat> {
    if b == [] then [] else
    var v := acc * 0x80 + b[0] % 0x80;
    if b[0] >= 0x80 then Arcs(b[1..], v) else [v] + Arcs(b[1..], 0)
  }

  lemma OidIsRsaEncryption()
    ensures OID[0] == 40 * 1 + 2 && Arcs(OID[1..], 0) == [840, 113549, 1, 1, 1]
  {
    assert OID[1..] == [0x86, 0x48, 0x86, 0xf7, 0x0d, 0x01, 0x01, 0x01];
    assert Arcs([0x01, 0x01, 0x01], 0) == [1, 1, 1] by {
      assert [0x01, 0x01, 0x01][1..] == [0x01, 0x01] && [0x01, 0x01][1..] == [0x01];
    }
    assert Arcs([0x86, 0xf7, 0x0d, 0x01, 0x01, 0x01], 0) == [113549, 1, 1, 1] by {
      assert [0x86, 0xf7, 0x0d, 0x01, 0x01, 0x01][1..] == [0xf7, 0x0d, 0x01, 0x01, 0x01];
      assert [0xf7, 0x0d, 0x01, 0x01, 0x01][1..] == [0x0d, 0x01, 0x01, 0x01];
      assert [0x0d, 0x01, 0x01, 0x01][1..] == [0x01, 0x01, 0x01];
    }
  }
}
