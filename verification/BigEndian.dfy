/** Big-endian byte strings, as DER lengths and SHA-256 padding have them. */
module BigEndian {
  import opened LittleEndian

  function BeValue(s: seq<byte>): nat {
    if s == [] then 0 else BeValue(s[..|s| - 1]) * 0x100 + s[|s| - 1]
  }

  function BeBytes(v: nat, n: nat): (s: seq<byte>)
    ensures |s| == n
  {
    if n == 0 then [] else BeBytes(v / 0x100, n - 1) + [v % 0x100]
  }

  /** `v >> 8i`. */
  function Shift(v: nat, i: nat): nat
    decreases i
  {
    if i == 0 then v else Shift(v / 0x100, i - 1)
  }

  lemma BeSnoc(s: seq<byte>, x: byte)
    ensures BeValue(s + [x]) == BeValue(s) * 0x100 + x
  {
    assert (s + [x])[..|s + [x]| - 1] == s;
  }

  lemma {:induction false} BeByteAt(v: nat, n: nat, i: nat)
    requires i < n
    ensures BeBytes(v, n)[n - 1 - i] == Shift(v, i) % 0x100
  {
    if i > 0 {
      BeByteAt(v / 0x100, n - 1, i - 1);
    }
  }
}
