/** Bytes and the little-endian accessors of src/le_bytes.h, with the helpers that
    every byte-level module shares. */
module LittleEndian {

  type byte = x: int | 0 <= x < 256
  type uint16 = x: int | 0 <= x < 0x1_0000
  type uint32 = x: int | 0 <= x < 0x1_0000_0000
  type int32 = x: int | -0x8000_0000 <= x < 0x8000_0000
  type int8 = x: int | -0x80 <= x < 0x80

  /** `size_t` subtraction: callable only where it cannot wrap around. */
  function SizeSub(a: nat, b: nat): nat
    requires b <= a
  {
    a - b
  }

  /** `bytes` is what stands in `b` at offset `pos`. */
  predicate At(b: seq<byte>, pos: nat, bytes: seq<byte>) {
    pos + |bytes| <= |b| && forall k :: 0 <= k < |bytes| ==> b[pos + k] == bytes[k]
  }

  /** Two strings one after the other stand where they should. */
  lemma AtConcat(b: seq<byte>, p: nat, x: seq<byte>, y: seq<byte>)
    requires At(b, p, x + y)
    ensures At(b, p, x) && At(b, p + |x|, y)
  {
    forall k | 0 <= k < |x|
      ensures b[p + k] == x[k]
    {
      assert b[p + k] == (x + y)[k];
    }
    forall k | 0 <= k < |y|
      ensures b[p + |x| + k] == y[k]
    {
      assert b[p + (|x| + k)] == (x + y)[|x| + k];
    }
  }

  lemma AtSlice(b: seq<byte>, p: nat, x: seq<byte>)
    requires At(b, p, x)
    ensures b[p..p + |x|] == x
  {
  }

  function Pow256(n: nat): (p: nat)
    ensures 0 < p
  {
    if n == 0 then 1 else 0x100 * Pow256(n - 1)
  }

  /** Value of a little-endian byte string, and the `n`-byte string of a value. */
  function LeValue(s: seq<byte>): nat {
    if s == [] then 0 else s[0] as int + 0x100 * LeValue(s[1..])
  }

  function LeBytes(v: nat, n: nat): (s: seq<byte>)
    ensures |s| == n
  {
    if n == 0 then [] else [v % 0x100] + LeBytes(v / 0x100, n - 1)
  }

  lemma {:induction false} LeValueBound(s: seq<byte>)
    ensures LeValue(s) < Pow256(|s|)
  {
    if s != [] {
      LeValueBound(s[1..]);
    }
  }

  lemma {:induction false} LeValueBytes(v: nat, n: nat)
    requires v < Pow256(n)
    ensures LeValue(LeBytes(v, n)) == v
  {
    if n != 0 {
      LeValueBytes(v / 0x100, n - 1);
      assert LeBytes(v, n)[1..] == LeBytes(v / 0x100, n - 1);
    }
  }

  lemma {:induction false} LeBytesValue(s: seq<byte>)
    ensures LeBytes(LeValue(s), |s|) == s
  {
    if s != [] {
      LeBytesValue(s[1..]);
      assert LeValue(s) % 0x100 == s[0] && LeValue(s) / 0x100 == LeValue(s[1..]);
    }
  }

  lemma Pow256Words()
    ensures Pow256(2) == 0x1_0000 && Pow256(4) == 0x1_0000_0000
  {
    assert Pow256(1) == 0x100 && Pow256(2) == 0x1_0000 && Pow256(3) == 0x100_0000;
  }

  function Rd16(b: seq<byte>, i: nat): uint16
    requires i + 2 <= |b|
  {
    LeValueBound(b[i..i + 2]);
    Pow256Words();
    LeValue(b[i..i + 2])
  }

  function Rd32(b: seq<byte>, i: nat): uint32
    requires i + 4 <= |b|
  {
    LeValueBound(b[i..i + 4]);
    Pow256Words();
    LeValue(b[i..i + 4])
  }

  function Le16(v: uint16): (s: seq<byte>)
    ensures |s| == 2
  {
    LeBytes(v, 2)
  }

  function Le32(v: uint32): (s: seq<byte>)
    ensures |s| == 4
  {
    LeBytes(v, 4)
  }

  /** The `(uint32_t)` and `(int32_t)` casts of a two's complement machine. */
  function ToU32(x: int32): uint32 {
    if x < 0 then x + 0x1_0000_0000 else x
  }

  function ToI32(x: uint32): int32 {
    if x < 0x8000_0000 then x else x - 0x1_0000_0000
  }

  function ToU8(x: int8): byte {
    if x < 0 then x + 0x100 else x
  }

  function ToI8(x: byte): int8 {
    if x < 0x80 then x else x - 0x100
  }

  lemma Rd16At(b: seq<byte>, i: nat, v: uint16)
    requires At(b, i, Le16(v))
    ensures Rd16(b, i) == v
  {
    assert b[i..i + 2] == Le16(v);
    Pow256Words();
    LeValueBytes(v, 2);
  }

  lemma Rd32At(b: seq<byte>, i: nat, v: uint32)
    requires At(b, i, Le32(v))
    ensures Rd32(b, i) == v
  {
    assert b[i..i + 4] == Le32(v);
    Pow256Words();
    LeValueBytes(v, 4);
  }

  lemma LeRd16(b: seq<byte>, i: nat)
    requires i + 2 <= |b|
    ensures Le16(Rd16(b, i)) == b[i..i + 2]
  {
    LeBytesValue(b[i..i + 2]);
  }

  lemma LeRd32(b: seq<byte>, i: nat)
    requires i + 4 <= |b|
    ensures Le32(Rd32(b, i)) == b[i..i + 4]
  {
    LeBytesValue(b[i..i + 4]);
  }

  /** The accessors as the source writes them, byte by byte. */
  lemma Rd32Bytes(b: seq<byte>, i: nat)
    requires i + 4 <= |b|
    ensures Rd32(b, i) == b[i] as int + 0x100 * b[i + 1] as int + 0x1_0000 * b[i + 2] as int + 0x100_0000 * b[i + 3] as int
  {
    var s := b[i..i + 4];
    assert s[1..][1..] == s[2..] && s[2..][1..] == s[3..] && s[3..][1..] == [];
    assert LeValue(s[3..]) == s[3] as int;
    assert LeValue(s[2..]) == s[2] as int + 0x100 * LeValue(s[3..]);
    assert LeValue(s[1..]) == s[1] as int + 0x100 * LeValue(s[2..]);
  }

  method Wr16(a: array<byte>, off: nat, v: uint16)
    requires off + 2 <= a.Length
    modifies a
    ensures At(a[..], off, Le16(v))
    ensures forall k :: 0 <= k < a.Length && !(off <= k < off + 2) ==> a[k] == old(a[k])
  {
    a[off] := v % 0x100;
    a[off + 1] := v / 0x100;
    assert LeBytes(v / 0x100, 1) == [v / 0x100];
  }

  method Wr32(a: array<byte>, off: nat, v: uint32)
    requires off + 4 <= a.Length
    modifies a
    ensures At(a[..], off, Le32(v))
    ensures forall k :: 0 <= k < a.Length && !(off <= k < off + 4) ==> a[k] == old(a[k])
  {
    var v1 := v / 0x100;
    var v2 := v1 / 0x100;
    var v3 := v2 / 0x100;
    a[off] := v % 0x100;
    a[off + 1] := v1 % 0x100;
    a[off + 2] := v2 % 0x100;
    a[off + 3] := v3;
    assert LeBytes(v3, 1) == [v3] && LeBytes(v2, 2) == [v2 % 0x100, v3] && LeBytes(v1, 3) == [v1 % 0x100, v2 % 0x100, v3];
  }

  /** memmove / memcpy of `n` bytes within one array; reads happen before writes. */
  method Move(a: array<byte>, dst: nat, src: nat, n: nat)
    requires dst + n <= a.Length && src + n <= a.Length
    modifies a
    ensures a[dst..dst + n] == old(a[src..src + n])
    ensures forall k :: 0 <= k < a.Length && !(dst <= k < dst + n) ==> a[k] == old(a[k])
  {
    forall k | 0 <= k < n {
      a[dst + k] := a[src + k];
    }
  }

  method Copy(a: array<byte>, dst: nat, data: seq<byte>)
    requires dst + |data| <= a.Length
    modifies a
    ensures At(a[..], dst, data)
    ensures forall k :: 0 <= k < a.Length && !(dst <= k < dst + |data|) ==> a[k] == old(a[k])
  {
    forall k | 0 <= k < |data| {
      a[dst + k] := data[k];
    }
  }

  /** The doubling growth policy the receive, spill and line buffers share. */
  method Grown(a: array<byte>, len: nat, need: nat) returns (b: array<byte>)
    requires len <= a.Length && len <= need
    ensures need <= b.Length && b[..len] == a[..len]
    ensures if need <= a.Length then b == a else fresh(b)
  {
    if need <= a.Length {
      return a;
    }
    var cap := if a.Length != 0 then a.Length else 4096;
    while cap < need
      invariant 0 < cap
      decreases need - cap
    {
      cap := cap * 2;
    }
    b := new byte[cap](_ => 0);
    forall k | 0 <= k < len {
      b[k] := a[k];
    }
  }
}
