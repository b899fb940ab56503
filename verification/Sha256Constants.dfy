/** The tables of src/polyfill_load.c, the constants of sections 4.2.2 and 5.3.3 of FIPS 180-4,
    and the hash with them. */
module Sha256Constants {
  import opened BigEndian
  import opened LittleEndian
  import opened Primes
  import opened OneShot = Sha256

  /** The first 32 bits of the fractional part of a root of `prime`, whose integer part is
      `whole`. */
  datatype Root = Root(prime: nat, whole: nat, bits: uint32)

  function Scaled(r: Root): nat {
    r.whole * MOD32 + r.bits
  }

  predicate IsCubeRoot(r: Root) {
    var y := Scaled(r);
    y * y * y <= r.prime * MOD32 * MOD32 * MOD32 < (y + 1) * (y + 1) * (y + 1)
  }

  predicate IsSquareRoot(r: Root) {
    var y := Scaled(r);
    y * y <= r.prime * MOD32 * MOD32 < (y + 1) * (y + 1)
  }

  /** Entries whose bits are the right ones for their prime: a wrong digit in a table below
      would not have this type. */
  type CubeRoot = r: Root | IsCubeRoot(r) witness Root(2, 1, 0x428a2f98)
  type SquareRoot = r: Root | IsSquareRoot(r) witness Root(2, 1, 0x6a09e667)

  const ROW0: seq<CubeRoot> := [
    Root(2, 1, 0x428a2f98), Root(3, 1, 0x71374491), Root(5, 1, 0xb5c0fbcf), Root(7, 1, 0xe9b5dba5),
    Root(11, 2, 0x3956c25b), Root(13, 2, 0x59f111f1), Root(17, 2, 0x923f82a4), Root(19, 2, 0xab1c5ed5)]

  const ROW1: seq<CubeRoot> := [
    Root(23, 2, 0xd807aa98), Root(29, 3, 0x12835b01), Root(31, 3, 0x243185be), Root(37, 3, 0x550c7dc3),
    Root(41, 3, 0x72be5d74), Root(43, 3, 0x80deb1fe), Root(47, 3, 0x9bdc06a7), Root(53, 3, 0xc19bf174)]

  const ROW2: seq<CubeRoot> := [
    Root(59, 3, 0xe49b69c1), Root(61, 3, 0xefbe4786), Root(67, 4, 0x0fc19dc6), Root(71, 4, 0x240ca1cc),
    Root(73, 4, 0x2de92c6f), Root(79, 4, 0x4a7484aa), Root(83, 4, 0x5cb0a9dc), Root(89, 4, 0x76f988da)]

  const ROW3: seq<CubeRoot> := [
    Root(97, 4, 0x983e5152), Root(101, 4, 0xa831c66d), Root(103, 4, 0xb00327c8), Root(107, 4, 0xbf597fc7),
    Root(109, 4, 0xc6e00bf3), Root(113, 4, 0xd5a79147), Root(127, 5, 0x06ca6351), Root(131, 5, 0x14292967)]

  const ROW4: seq<CubeRoot> := [
    Root(137, 5, 0x27b70a85), Root(139, 5, 0x2e1b2138), Root(149, 5, 0x4d2c6dfc), Root(151, 5, 0x53380d13),
    Root(157, 5, 0x650a7354), Root(163, 5, 0x766a0abb), Root(167, 5, 0x81c2c92e), Root(173, 5, 0x92722c85)]

  const ROW5: seq<CubeRoot> := [
    Root(179, 5, 0xa2bfe8a1), Root(181, 5, 0xa81a664b), Root(191, 5, 0xc24b8b70), Root(193, 5, 0xc76c51a3),
    Root(197, 5, 0xd192e819), Root(199, 5, 0xd6990624), Root(211, 5, 0xf40e3585), Root(223, 6, 0x106aa070)]

  const ROW6: seq<CubeRoot> := [
    Root(227, 6, 0x19a4c116), Root(229, 6, 0x1e376c08), Root(233, 6, 0x2748774c), Root(239, 6, 0x34b0bcb5),
    Root(241, 6, 0x391c0cb3), Root(251, 6, 0x4ed8aa4a), Root(257, 6, 0x5b9cca4f), Root(263, 6, 0x682e6ff3)]

  const ROW7: seq<CubeRoot> := [
    Root(269, 6, 0x748f82ee), Root(271, 6, 0x78a5636f), Root(277, 6, 0x84c87814), Root(281, 6, 0x8cc70208),
    Root(283, 6, 0x90befffa), Root(293, 6, 0xa4506ceb), Root(307, 6, 0xbef9a3f7), Root(311, 6, 0xc67178f2)]

  const INITIAL: seq<SquareRoot> := [
    Root(2, 1, 0x6a09e667), Root(3, 1, 0xbb67ae85), Root(5, 2, 0x3c6ef372), Root(7, 2, 0xa54ff53a),
    Root(11, 3, 0x510e527f), Root(13, 3, 0x9b05688c), Root(17, 4, 0x1f83d9ab), Root(19, 4, 0x5be0cd19)]

  const CONSTANTS: seq<CubeRoot> := ROW0 + ROW1 + ROW2 + ROW3 + ROW4 + ROW5 + ROW6 + ROW7

  function Bits(table: seq<Root>): (w: Words)
    ensures |w| == |table| && forall i :: 0 <= i < |table| ==> w[i] == table[i].bits
  {
    seq(|table|, i requires 0 <= i < |table| => table[i].bits)
  }

  function PrimesOf(table: seq<Root>): (ps: seq<nat>)
    ensures |ps| == |table| && forall i :: 0 <= i < |table| ==> ps[i] == table[i].prime
  {
    seq(|table|, i requires 0 <= i < |table| => table[i].prime)
  }

  lemma Chained0()
    ensures Chained(PrimesOf(ROW0))
  {
    assert Gap(2, 3) && Gap(3, 5) && Gap(5, 7) && Gap(7, 11);
    assert Gap(11, 13) && Gap(13, 17) && Gap(17, 19);
  }

  lemma Chained1()
    ensures Chained(PrimesOf(ROW1))
  {
    assert Gap(23, 29) && Gap(29, 31) && Gap(31, 37) && Gap(37, 41);
    assert Gap(41, 43) && Gap(43, 47) && Gap(47, 53);
  }

  lemma Chained2()
    ensures Chained(PrimesOf(ROW2))
  {
    assert Gap(59, 61) && Gap(61, 67) && Gap(67, 71) && Gap(71, 73);
    assert Gap(73, 79) && Gap(79, 83) && Gap(83, 89);
  }

  lemma Chained3()
    ensures Chained(PrimesOf(ROW3))
  {
    assert Gap(97, 101) && Gap(101, 103) && Gap(103, 107) && Gap(107, 109);
    assert Gap(109, 113) && Gap(113, 127) && Gap(127, 131);
  }

  lemma Chained4()
    ensures Chained(PrimesOf(ROW4))
  {
    assert Gap(137, 139) && Gap(139, 149) && Gap(149, 151) && Gap(151, 157);
    assert Gap(157, 163) && Gap(163, 167) && Gap(167, 173);
  }

  lemma Chained5()
    ensures Chained(PrimesOf(ROW5))
  {
    assert Gap(179, 181) && Gap(181, 191) && Gap(191, 193) && Gap(193, 197);
    assert Gap(197, 199) && Gap(199, 211) && Gap(211, 223);
  }

  lemma Chained6()
    ensures Chained(PrimesOf(ROW6))
  {
    assert Gap(227, 229) && Gap(229, 233) && Gap(233, 239) && Gap(239, 241);
    assert Gap(241, 251) && Gap(251, 257) && Gap(257, 263);
  }

  lemma Chained7()
    ensures Chained(PrimesOf(ROW7))
  {
    assert Gap(269, 271) && Gap(271, 277) && Gap(277, 281) && Gap(281, 283);
    assert Gap(283, 293) && Gap(293, 307) && Gap(307, 311);
  }

  lemma PrimesAppend(a: seq<Root>, b: seq<Root>)
    requires a != [] && b != [] && Chained(PrimesOf(a)) && Chained(PrimesOf(b)) && Gap(a[|a| - 1].prime, b[0].prime)
    ensures Chained(PrimesOf(a + b))
  {
    ChainedAppend(PrimesOf(a), PrimesOf(b));
    assert PrimesOf(a + b) == PrimesOf(a) + PrimesOf(b);
  }

  lemma ChainedUpTo1()
    ensures Chained(PrimesOf(ROW0 + ROW1))
  {
    Chained0();
    Chained1();
    assert Gap(19, 23);
    PrimesAppend(ROW0, ROW1);
  }

  lemma ChainedUpTo2()
    ensures Chained(PrimesOf(ROW0 + ROW1 + ROW2))
  {
    ChainedUpTo1();
    Chained2();
    assert Gap(53, 59);
    PrimesAppend(ROW0 + ROW1, ROW2);
  }

  lemma ChainedUpTo3()
    ensures Chained(PrimesOf(ROW0 + ROW1 + ROW2 + ROW3))
  {
    ChainedUpTo2();
    Chained3();
    assert Gap(89, 97);
    PrimesAppend(ROW0 + ROW1 + ROW2, ROW3);
  }

  lemma ChainedUpTo4()
    ensures Chained(PrimesOf(ROW0 + ROW1 + ROW2 + ROW3 + ROW4))
  {
    ChainedUpTo3();
    Chained4();
    assert Gap(131, 137);
    PrimesAppend(ROW0 + ROW1 + ROW2 + ROW3, ROW4);
  }

  lemma ChainedUpTo5()
    ensures Chained(PrimesOf(ROW0 + ROW1 + ROW2 + ROW3 + ROW4 + ROW5))
  {
    ChainedUpTo4();
    Chained5();
    assert Gap(173, 179);
    PrimesAppend(ROW0 + ROW1 + ROW2 + ROW3 + ROW4, ROW5);
  }

  lemma ChainedUpTo6()
    ensures Chained(PrimesOf(ROW0 + ROW1 + ROW2 + ROW3 + ROW4 + ROW5 + ROW6))
  {
    ChainedUpTo5();
    Chained6();
    assert Gap(223, 227);
    PrimesAppend(ROW0 + ROW1 + ROW2 + ROW3 + ROW4 + ROW5, ROW6);
  }

  lemma ChainedUpTo7()
    ensures Chained(PrimesOf(ROW0 + ROW1 + ROW2 + ROW3 + ROW4 + ROW5 + ROW6 + ROW7))
  {
    ChainedUpTo6();
    Chained7();
    assert Gap(263, 269);
    PrimesAppend(ROW0 + ROW1 + ROW2 + ROW3 + ROW4 + ROW5 + ROW6, ROW7);
  }

  /** The round constants are the fractional bits of the cube roots of the first 64 primes, the
      initial value those of the square roots of the first eight. */
  lemma ConstantsAreRoots()
    ensures |CONSTANTS| == 64 && |INITIAL| == 8
    ensures forall i :: 0 <= i < 64 ==> IsCubeRoot(CONSTANTS[i])
    ensures forall i :: 0 <= i < 8 ==> IsSquareRoot(INITIAL[i])
    ensures FirstPrimes(PrimesOf(CONSTANTS)) && PrimesOf(INITIAL) == PrimesOf(CONSTANTS[..8])
  {
    ChainedUpTo7();
    assert forall i :: 0 <= i < 64 ==> CONSTANTS[i].prime < LIMIT;
    ChainedIsFirst(PrimesOf(CONSTANTS));
  }

  /** `sha256` with the standard's functions and constants. */
  method Sha256(data: Bytes) returns (out: array<byte>)
    ensures fresh(out) && out[..] == Digest(Compressor(FIPS, Bits(CONSTANTS)), Bits(INITIAL), data)
  {
    ConstantsAreRoots();
    out := Hash(FIPS, Bits(CONSTANTS), Bits(INITIAL), data);
  }
}
