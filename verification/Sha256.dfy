/** The one-shot SHA-256 of src/polyfill_load.c against FIPS 180-4. Words are numbers below
    2 to the 32, added modulo 2 to the 32. The six logical functions come in as a parameter,
    because nothing here depends on their bits; `FIPS` is their definition. */
module Sha256 {
  import opened BigEndian
  import opened LittleEndian
  import opened Wrappers

  type Bytes = seq<byte>
  type Words = seq<uint32>

  const MOD32 := 0x1_0000_0000

  // ---------------------------------------------------------------- section 4.1.2

  function Rotr(x: bv32, n: nat): bv32
    requires 0 < n < 32
  {
    (x >> n) | (x << (32 - n))
  }

  function BigSigma0(x: uint32): uint32 {
    var b := x as bv32;
    (Rotr(b, 2) ^ Rotr(b, 13) ^ Rotr(b, 22)) as int
  }

  function BigSigma1(x: uint32): uint32 {
    var b := x as bv32;
    (Rotr(b, 6) ^ Rotr(b, 11) ^ Rotr(b, 25)) as int
  }

  function SmallSigma0(x: uint32): uint32 {
    var b := x as bv32;
    (Rotr(b, 7) ^ Rotr(b, 18) ^ (b >> 3)) as int
  }

  function SmallSigma1(x: uint32): uint32 {
    var b := x as bv32;
    (Rotr(b, 17) ^ Rotr(b, 19) ^ (b >> 10)) as int
  }

  function Ch(x: uint32, y: uint32, z: uint32): uint32 {
    var a, b, c := x as bv32, y as bv32, z as bv32;
    ((a & b) ^ (!a & c)) as int
  }

  function Maj(x: uint32, y: uint32, z: uint32): uint32 {
    var a, b, c := x as bv32, y as bv32, z as bv32;
    ((a & b) ^ (a & c) ^ (b & c)) as int
  }

  datatype Logic = Logic(
    bigSigma0: uint32 -> uint32, bigSigma1: uint32 -> uint32, smallSigma0: uint32 -> uint32, smallSigma1: uint32 -> uint32,
    ch: (uint32, uint32, uint32) -> uint32, maj: (uint32, uint32, uint32) -> uint32)

  const FIPS := Logic(BigSigma0, BigSigma1, SmallSigma0, SmallSigma1, Ch, Maj)

  /** Addition modulo 2 to the 32. */
  function Add(x: uint32, y: uint32): (z: uint32)
    ensures z == (x as int + y) % MOD32
  {
    var sum := x as int + y;
    if sum < MOD32 then sum else sum - MOD32
  }

  lemma AddSwaps(a: uint32, b: uint32, c: uint32)
    ensures Add(a, b) == Add(b, a) && Add(Add(a, b), c) == Add(Add(a, c), b)
  {
  }

  lemma AddOrder(a: uint32, b: uint32, c: uint32, d: uint32)
    ensures Add(Add(Add(a, b), c), d) == Add(Add(Add(d, c), b), a)
  {
    AddSwaps(Add(a, b), c, d);
    AddSwaps(a, b, d);
    AddSwaps(Add(a, d), b, c);
    AddSwaps(a, d, c);
    AddSwaps(d, a, c);
    AddSwaps(Add(d, c), a, b);
  }

  // ---------------------------------------------------------------- section 6.2.2

  /** Word `t` of a block, most significant byte first. */
  function BlockWord(block: Bytes, t: nat): uint32
    requires 4 * t + 4 <= |block|
  {
    Assembled(block[4 * t], block[4 * t + 1], block[4 * t + 2], block[4 * t + 3])
  }

  /** `b0 << 24 | b1 << 16 | b2 << 8 | b3`. */
  function Assembled(b0: byte, b1: byte, b2: byte, b3: byte): uint32 {
    var x0: int, x1: int, x2: int, x3: int := b0, b1, b2, b3;
    x0 * 0x100_0000 + x1 * 0x1_0000 + x2 * 0x100 + x3
  }

  /** The message schedule, step 1. */
  function Schedule(f: Logic, block: Bytes, t: nat): uint32
    requires |block| == 64 && t < 64
  {
    if t < 16 then BlockWord(block, t) else
    Add(Add(Add(f.smallSigma1(Schedule(f, block, t - 2)), Schedule(f, block, t - 7)),
            f.smallSigma0(Schedule(f, block, t - 15))), Schedule(f, block, t - 16))
  }

  datatype Vars = Vars(a: uint32, b: uint32, c: uint32, d: uint32, e: uint32, f: uint32, g: uint32, h: uint32)

  /** One turn of step 3, with the round constant and the schedule word. */
  function Round(f: Logic, v: Vars, k: uint32, w: uint32): Vars {
    var t1 := Add(Add(Add(Add(v.h, f.bigSigma1(v.e)), f.ch(v.e, v.f, v.g)), k), w);
    var t2 := Add(f.bigSigma0(v.a), f.maj(v.a, v.b, v.c));
    Vars(Add(t1, t2), v.a, v.b, v.c, Add(v.d, t1), v.e, v.f, v.g)
  }

  function Rounds(f: Logic, v: Vars, block: Bytes, k: Words, t: nat): Vars
    requires |block| == 64 && |k| == 64 && t <= 64
  {
    if t == 0 then v else Round(f, Rounds(f, v, block, k, t - 1), k[t - 1], Schedule(f, block, t - 1))
  }

  function Load(s: Words): Vars
    requires |s| == 8
  {
    Vars(s[0], s[1], s[2], s[3], s[4], s[5], s[6], s[7])
  }

  function AddTo(s: Words, v: Vars): (r: Words)
    requires |s| == 8
    ensures |r| == 8
  {
    [Add(s[0], v.a), Add(s[1], v.b), Add(s[2], v.c), Add(s[3], v.d),
     Add(s[4], v.e), Add(s[5], v.f), Add(s[6], v.g), Add(s[7], v.h)]
  }

  /** The hash value after one block, steps 1 to 4. */
  function Compress(f: Logic, s: Words, block: Bytes, k: Words): (r: Words)
    requires |s| == 8 && |block| == 64 && |k| == 64
    ensures |r| == 8
  {
    AddTo(s, Rounds(f, Load(s), block, k, 64))
  }

  /** Block after block, with `compress` the work on one. */
  function Fold(compress: (Words, Bytes) -> Words, s: Words, b: Bytes): Words
    decreases |b|
  {
    if |b| < 64 then s else Fold(compress, compress(s, b[..64]), b[64..])
  }

  function Compressor(f: Logic, k: Words): (Words, Bytes) -> Words {
    (s: Words, block: Bytes) => if |s| == 8 && |block| == 64 && |k| == 64 then Compress(f, s, block, k) else s
  }

  // ---------------------------------------------------------------- section 5.1.1

  /** Zero bytes behind the byte 0x80. */
  function ZeroCount(len: nat): (z: nat)
    ensures z < 64
  {
    (55 - len) % 64
  }

  function Zeros(n: nat): (b: Bytes)
    ensures |b| == n && forall i :: 0 <= i < n ==> b[i] == 0
  {
    seq(n, _ => 0)
  }

  /** What follows the message. */
  function Padding(len: nat): Bytes {
    [0x80] + Zeros(ZeroCount(len)) + BeBytes(8 * len, 8)
  }

  /** `k` zero bits after `l` message bits and a 1 leave room for the 64-bit length. */
  predicate Fills(l: nat, k: nat) {
    (l + 1 + k) % 512 == 448
  }

  /** In bits: after the message and the bit 1 come the fewest zero bits that fill a block up to
      its last 64 bits; seven of them complete the byte 0x80. With the length the padded message
      is a whole number of blocks. */
  lemma PaddingIsMinimal(len: nat)
    ensures Fills(8 * len, 7 + 8 * ZeroCount(len)) && 8 * |Padding(len)| == 1 + (7 + 8 * ZeroCount(len)) + 64
    ensures forall j :: 0 <= j < 7 + 8 * ZeroCount(len) ==> !Fills(8 * len, j)
    ensures (len + |Padding(len)|) % 64 == 0
  {
    var z := ZeroCount(len);
    var q := BlocksBefore(len);
    FillsAt(8 * len, 7 + 8 * z, q);
    WholeBlocks(len, z, q);
    forall j | 0 <= j < 7 + 8 * z
      ensures !Fills(8 * len, j)
    {
      FirstFill(8 * len, 7 + 8 * z, q, j);
    }
  }

  lemma WholeBlocks(len: nat, z: nat, q: nat)
    requires len + 1 + z == 64 * q + 56
    ensures (len + 1 + z + 8) % 64 == 0
  {
    assert len + 1 + z + 8 == 64 * (q + 1);
  }

  lemma BlocksBefore(len: nat) returns (q: nat)
    ensures len + 1 + ZeroCount(len) == 64 * q + 56
  {
    var d := (55 - len) / 64;
    assert 55 - len == 64 * d + ZeroCount(len);
    q := -d;
  }

  lemma FillsAt(l: nat, k: nat, q: nat)
    requires l + 1 + k == 512 * q + 448
    ensures Fills(l, k)
  {
  }

  lemma FirstFill(l: nat, k: nat, q: nat, j: nat)
    requires l + 1 + k == 512 * q + 448 && j < k < 512
    ensures !Fills(l, j)
  {
    var r := (l + 1 + j) / 512;
    assert l + 1 + j == 512 * r + 448 ==> k - j == 512 * (q - r);
  }

  // ---------------------------------------------------------------- the digest

  function WordBytes(x: uint32): (b: Bytes)
    ensures |b| == 4
  {
    [x / 0x100_0000, x / 0x1_0000 % 0x100, x / 0x100 % 0x100, x % 0x100]
  }

  function Flatten(s: Words): (b: Bytes)
    ensures |b| == 4 * |s|
  {
    if s == [] then [] else Flatten(s[..|s| - 1]) + WordBytes(s[|s| - 1])
  }

  /** The digest of section 6.2: pad, split into blocks, fold the compression, concatenate. */
  function Digest(compress: (Words, Bytes) -> Words, initial: Words, msg: Bytes): Bytes {
    Flatten(Fold(compress, initial, msg + Padding(|msg|)))
  }

  // ---------------------------------------------------------------- sha256_compress

  ghost predicate Expanded(w: array<uint32>, f: Logic, p: Bytes, i: nat)
    requires |p| == 64
    reads w
  {
    w.Length == 64 && i <= 64 && forall t {:trigger w[t]} :: 0 <= t < i ==> w[t] == Schedule(f, p, t)
  }

  /** One turn of the second schedule loop. */
  method NextWord(f: Logic, w: array<uint32>, i: nat, ghost p: Bytes) returns (x: uint32)
    requires |p| == 64 && 16 <= i < 64 && Expanded(w, f, p, i)
    ensures x == Schedule(f, p, i)
  {
    var s0 := f.smallSigma0(w[i - 15]);
    var s1 := f.smallSigma1(w[i - 2]);
    x := Add(Add(Add(w[i - 16], s0), w[i - 7]), s1);
    AddOrder(w[i - 16], s0, w[i - 7], s1);
  }

  lemma ExpandedStep(w: array<uint32>, f: Logic, p: Bytes, i: nat, before: seq<uint32>)
    requires |p| == 64 && i < 64 && w.Length == 64 == |before|
    requires forall t {:trigger before[t]} :: 0 <= t < i ==> before[t] == Schedule(f, p, t) && w[t] == before[t]
    requires w[i] == Schedule(f, p, i)
    ensures Expanded(w, f, p, i + 1)
  {
    forall t | 0 <= t < i + 1
      ensures w[t] == Schedule(f, p, t)
    {
      if t < i {
        assert before[t] == Schedule(f, p, t);
      }
    }
  }

  /** `w[i] = x`. */
  method Store(w: array<uint32>, f: Logic, p: Bytes, i: nat, x: uint32)
    requires |p| == 64 && i < 64 && Expanded(w, f, p, i) && x == Schedule(f, p, i)
    modifies w
    ensures Expanded(w, f, p, i + 1)
  {
    ghost var before := w[..];
    w[i] := x;
    ExpandedStep(w, f, p, i, before);
  }

  /** The schedule array. */
  method Expand(f: Logic, p: Bytes) returns (w: array<uint32>)
    requires |p| == 64
    ensures fresh(w) && Expanded(w, f, p, 64)
  {
    w := new uint32[64](_ => 0);
    var i: nat := 0;
    while i < 16
      invariant i <= 16 && Expanded(w, f, p, i)
    {
      Store(w, f, p, i, Assembled(p[i * 4], p[i * 4 + 1], p[i * 4 + 2], p[i * 4 + 3]));
      i := i + 1;
    }
    while i < 64
      invariant 16 <= i <= 64 && Expanded(w, f, p, i)
    {
      var x := NextWord(f, w, i, p);
      Store(w, f, p, i, x);
      i := i + 1;
    }
  }

  /** `sha256_compress`: the hash value is updated in place. */
  method CompressBlock(f: Logic, h: array<uint32>, p: Bytes, k: Words)
    requires h.Length == 8 && |p| == 64 && |k| == 64
    modifies h
    ensures h[..] == Compress(f, old(h[..]), p, k)
  {
    var w := Expand(f, p);
    ghost var s := h[..];
    var a, b, c, d := h[0], h[1], h[2], h[3];
    var e, ff, g, hh := h[4], h[5], h[6], h[7];
    var i := 0;
    while i < 64
      invariant 0 <= i <= 64 && Vars(a, b, c, d, e, ff, g, hh) == Rounds(f, Load(s), p, k, i)
    {
      var t1 := Add(Add(Add(Add(hh, f.bigSigma1(e)), f.ch(e, ff, g)), k[i]), w[i]);
      var t2 := Add(f.bigSigma0(a), f.maj(a, b, c));
      hh, g, ff, e := g, ff, e, Add(d, t1);
      d, c, b, a := c, b, a, Add(t1, t2);
      i := i + 1;
    }
    h[0], h[1], h[2], h[3] := Add(h[0], a), Add(h[1], b), Add(h[2], c), Add(h[3], d);
    h[4], h[5], h[6], h[7] := Add(h[4], e), Add(h[5], ff), Add(h[6], g), Add(h[7], hh);
  }

  // ---------------------------------------------------------------- sha256

  /** The tail buffer holds the rest of the message and its padding: one block, or two. */
  method FillTail(data: Bytes, i: nat, tail: array<byte>) returns (tailLen: nat)
    requires i <= |data| && i % 64 == 0 && |data| - i < 64 && tail.Length == 128
    modifies tail
    ensures tailLen == (if |data| - i < 56 then 64 else 128) && tail[..tailLen] == data[i..] + Padding(|data|)
  {
    var rem := |data| - i;
    var bits := 8 * |data|;
    forall k | 0 <= k < 128 {
      tail[k] := 0;
    }
    Copy(tail, 0, data[i..]);
    tail[rem] := 0x80;
    tailLen := if rem < 56 then 64 else 128;
    var k := 0;
    while k < 8
      invariant 0 <= k <= 8
      invariant forall j :: 0 <= j < rem ==> tail[j] == data[i..][j]
      invariant tail[rem] == 0x80 && forall j :: rem < j < tailLen - 8 ==> tail[j] == 0
      invariant forall j {:trigger tail[j]} :: tailLen - k <= j < tailLen ==> tail[j] == BeBytes(bits, 8)[j - (tailLen - 8)]
    {
      BeByteAt(bits, 8, k);
      tail[tailLen - 1 - k] := Shift(bits, k) % 0x100;
      k := k + 1;
    }
    TailIs(data[i..], |data|, tail[..tailLen]);
  }

  lemma TailIs(rest: Bytes, len: nat, tail: Bytes)
    requires |rest| < 64 && (len - |rest|) % 64 == 0 && |tail| == if |rest| < 56 then 64 else 128
    requires forall j :: 0 <= j < |rest| ==> tail[j] == rest[j]
    requires tail[|rest|] == 0x80 && forall j :: |rest| < j < |tail| - 8 ==> tail[j] == 0
    requires forall j {:trigger tail[j]} :: |tail| - 8 <= j < |tail| ==> tail[j] == BeBytes(8 * len, 8)[j - (|tail| - 8)]
    ensures tail == rest + Padding(len)
  {
    TailLength(|rest|, len);
    var z, n := ZeroCount(len), |rest|;
    assert tail[..n] == rest && tail[n..n + 1] == [0x80] && tail[n + 1..n + 1 + z] == Zeros(z);
    assert tail[n + 1 + z..] == BeBytes(8 * len, 8);
    Parts(tail, n, n + 1, n + 1 + z);
    Assoc(rest, [0x80] + Zeros(z), BeBytes(8 * len, 8));
    Assoc(rest, [0x80], Zeros(z));
  }

  lemma TailLength(n: nat, len: nat)
    requires n < 64 && (len - n) % 64 == 0
    ensures n + 1 + ZeroCount(len) + 8 == if n < 56 then 64 else 128
  {
    var q := BlocksBefore(len);
    var k := (len - n) / 64;
    assert len - n == 64 * k;
  }

  lemma Parts(b: Bytes, i: nat, j: nat, k: nat)
    requires i <= j <= k <= |b|
    ensures b == b[..i] + b[i..j] + b[j..k] + b[k..]
  {
  }

  lemma FoldStep(compress: (Words, Bytes) -> Words, s: Words, block: Bytes, rest: Bytes)
    requires |block| == 64
    ensures Fold(compress, s, block + rest) == Fold(compress, compress(s, block), rest)
  {
    assert (block + rest)[..64] == block && (block + rest)[64..] == rest;
  }

  /** `c` is the compression function with these parameters. */
  ghost predicate Does(c: (Words, Bytes) -> Words, f: Logic, k: Words) {
    |k| == 64 && forall s: Words, block: Bytes {:trigger Compress(f, s, block, k)} ::
      |s| == 8 && |block| == 64 ==> c(s, block) == Compress(f, s, block, k)
  }

  lemma CompressorDoes(f: Logic, k: Words)
    requires |k| == 64
    ensures Does(Compressor(f, k), f, k)
  {
  }

  method CompressStep(f: Logic, h: array<uint32>, p: Bytes, k: Words, ghost c: (Words, Bytes) -> Words)
    requires h.Length == 8 && |p| == 64 && Does(c, f, k)
    modifies h
    ensures h[..] == c(old(h[..]), p)
  {
    CompressBlock(f, h, p, k);
  }

  /** The remaining blocks of `b`, from `i` on, and what follows. */
  function Rest(b: Bytes, i: nat, after: Bytes): Bytes
    requires i <= |b|
  {
    b[i..] + after
  }

  lemma RestStep(c: (Words, Bytes) -> Words, s: Words, b: Bytes, i: nat, after: Bytes)
    requires i + 64 <= |b|
    ensures Fold(c, s, Rest(b, i, after)) == Fold(c, c(s, b[i..i + 64]), Rest(b, i + 64, after))
  {
    FoldStep(c, s, b[i..i + 64], Rest(b, i + 64, after));
    assert Rest(b, i, after) == b[i..i + 64] + Rest(b, i + 64, after);
  }

  /** Fold the whole blocks of `b` into the hash value. */
  method FoldBlocks(f: Logic, k: Words, h: array<uint32>, b: Bytes, ghost after: Bytes, ghost c: (Words, Bytes) -> Words)
    returns (i: nat)
    requires h.Length == 8 && Does(c, f, k)
    modifies h
    ensures i <= |b| && i % 64 == 0 && |b| - i < 64
    ensures Fold(c, h[..], Rest(b, i, after)) == Fold(c, old(h[..]), b + after)
  {
    i := 0;
    assert Rest(b, 0, after) == b + after;
    while i + 64 <= |b|
      invariant i <= |b| && i % 64 == 0
      invariant Fold(c, h[..], Rest(b, i, after)) == Fold(c, old(h[..]), b + after)
    {
      RestStep(c, h[..], b, i, after);
      CompressStep(f, h, b[i..i + 64], k, c);
      i := i + 64;
    }
  }

  method PutWord(out: array<byte>, k: nat, x: uint32)
    requires 4 * k + 4 <= out.Length
    modifies out
    ensures out[..4 * k + 4] == old(out[..4 * k]) + WordBytes(x)
  {
    out[4 * k] := x / 0x100_0000;
    out[4 * k + 1] := x / 0x1_0000 % 0x100;
    out[4 * k + 2] := x / 0x100 % 0x100;
    out[4 * k + 3] := x % 0x100;
    assert out[..4 * k] == old(out[..4 * k]);
  }

  lemma FlattenStep(s: Words, k: nat)
    requires k < |s|
    ensures Flatten(s[..k + 1]) == Flatten(s[..k]) + WordBytes(s[k])
  {
    assert s[..k + 1][..k] == s[..k];
  }

  /** The output loop: eight words, most significant byte first. */
  method Output(h: array<uint32>) returns (out: array<byte>)
    requires h.Length == 8
    ensures fresh(out) && out[..] == Flatten(h[..])
  {
    out := new byte[32](_ => 0);
    var k: nat := 0;
    ghost var words := h[..];
    while k < 8
      invariant k <= 8 && out[..4 * k] == Flatten(words[..k])
    {
      PutWord(out, k, h[k]);
      FlattenStep(words, k);
      k := k + 1;
    }
    assert words[..8] == words && out[..32] == out[..];
  }

  /** `sha256`: whole blocks straight from the data, then the tail buffer. */
  method HashWith(f: Logic, k: Words, initial: Words, data: Bytes, ghost c: (Words, Bytes) -> Words) returns (out: array<byte>)
    requires |initial| == 8 && Does(c, f, k)
    ensures fresh(out) && out[..] == Digest(c, initial, data)
  {
    var h := new uint32[8](i requires 0 <= i < 8 => initial[i]);
    assert h[..] == initial;
    ghost var padding := Padding(|data|);
    var i := FoldBlocks(f, k, h, data, padding, c);
    var tail := new byte[128](_ => 0);
    var tailLen := FillTail(data, i, tail);
    ghost var last := tail[..tailLen];
    assert last + [] == Rest(data, i, padding);
    var j := FoldBlocks(f, k, h, tail[..tailLen], [], c);
    assert j == tailLen && Rest(last, j, []) == [];
    out := Output(h);
  }

  /** The one-shot form computes the digest of section 6.2. */
  method Hash(f: Logic, k: Words, initial: Words, data: Bytes) returns (out: array<byte>)
    requires |k| == 64 && |initial| == 8
    ensures fresh(out) && out[..] == Digest(Compressor(f, k), initial, data)
  {
    CompressorDoes(f, k);
    out := HashWith(f, k, initial, data, Compressor(f, k));
  }
}
