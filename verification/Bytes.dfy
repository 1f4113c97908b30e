/** Bytes, fixed-width integer encodings and the small result types shared by the other modules. */
module Bytes {

  type byte = x: int | 0 <= x < 256

  type Bits = seq<byte>

  datatype Option<+T> = None | Some(value: T)

  const TWO64: nat := 0x1_0000_0000_0000_0000

  /** 256 to the power n: the number of values an n-byte field can hold. */
  function Pow256(n: nat): (p: nat)
    ensures p >= 1
  {
    if n == 0 then 1 else 256 * Pow256(n - 1)
  }

  /** n-byte big-endian encoding of v, dropping the high bits that do not fit. */
  function BigEndian(v: nat, n: nat): (s: Bits)
    ensures |s| == n
  {
    if n == 0 then [] else BigEndian(v / 256, n - 1) + [v % 256]
  }

  function FromBigEndian(s: Bits): (v: nat)
    ensures v < Pow256(|s|)
  {
    if s == [] then 0 else 256 * FromBigEndian(s[..|s| - 1]) + s[|s| - 1]
  }

  /** n-byte little-endian encoding of v, dropping the high bits that do not fit. */
  function LittleEndian(v: nat, n: nat): (s: Bits)
    ensures |s| == n
  {
    if n == 0 then [] else [v % 256] + LittleEndian(v / 256, n - 1)
  }

  function FromLittleEndian(s: Bits): (v: nat)
    ensures v < Pow256(|s|)
  {
    if s == [] then 0 else s[0] + 256 * FromLittleEndian(s[1..])
  }

  /** Which byte comes first. */
  lemma ByteOrder(v: nat, n: nat)
    ensures BigEndian(v, n + 1)[n] == v % 256 && LittleEndian(v, n + 1)[0] == v % 256
    ensures BigEndian(v, n + 1)[..n] == BigEndian(v / 256, n) && LittleEndian(v, n + 1)[1..] == LittleEndian(v / 256, n)
  {}

  lemma {:induction false} BigEndianRoundTrip(v: nat, n: nat)
    ensures FromBigEndian(BigEndian(v, n)) == v <==> v < Pow256(n)
    ensures FromBigEndian(BigEndian(v, n)) <= v
  {
    if n != 0 {
      var s := BigEndian(v, n);
      assert s[..n - 1] == BigEndian(v / 256, n - 1);
      BigEndianRoundTrip(v / 256, n - 1);
    }
  }

  lemma {:induction false} LittleEndianRoundTrip(v: nat, n: nat)
    ensures FromLittleEndian(LittleEndian(v, n)) == v <==> v < Pow256(n)
    ensures FromLittleEndian(LittleEndian(v, n)) <= v
  {
    if n != 0 {
      assert LittleEndian(v, n)[1..] == LittleEndian(v / 256, n - 1);
      LittleEndianRoundTrip(v / 256, n - 1);
    }
  }

  lemma Pow256Values()
    ensures Pow256(2) == 65536 && Pow256(4) == 0x1_0000_0000 && Pow256(8) == TWO64
  {
    assert Pow256(4) == 256 * (256 * Pow256(2));
    assert Pow256(8) == 256 * (256 * (256 * (256 * Pow256(4))));
  }
}
