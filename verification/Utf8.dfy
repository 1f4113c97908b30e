/** Text as bytes: well-formed UTF-8 (section 4 of RFC 3629) and what decoding followed by encoding
    makes of other bytes. */
module Utf8 {
  import opened Bytes

  predicate Continuation(x: byte) { 0x80 <= x <= 0xBF }

  /** The second bytes allowed after a first byte of three or four: no overlong forms, no surrogates,
      nothing above U+10FFFF. */
  predicate SecondOk(first: byte, x: byte) {
    && Continuation(x)
    && (first == 0xE0 ==> 0xA0 <= x) && (first == 0xED ==> x <= 0x9F)
    && (first == 0xF0 ==> 0x90 <= x) && (first == 0xF4 ==> x <= 0x8F)
  }

  /** The length of the character at the front of b, or 0 when there is none. */
  function First(b: Bits): (n: nat)
    ensures n <= 4 && n <= |b|
  {
    if |b| >= 1 && b[0] < 0x80 then 1
    else if |b| >= 2 && 0xC2 <= b[0] <= 0xDF && Continuation(b[1]) then 2
    else if |b| >= 3 && 0xE0 <= b[0] <= 0xEF && SecondOk(b[0], b[1]) && Continuation(b[2]) then 3
    else if |b| >= 4 && 0xF0 <= b[0] <= 0xF4 && SecondOk(b[0], b[1]) && Continuation(b[2]) && Continuation(b[3]) then 4
    else 0
  }

  predicate WellFormed(b: Bits) {
    b == [] || (First(b) > 0 && WellFormed(b[First(b)..]))
  }

  // ---------------------------------------------------------------- characters

  /** A Unicode scalar value. */
  predicate Scalar(c: int) { 0 <= c < 0xD800 || 0xE000 <= c < 0x110000 }

  /** The bytes of a character: section 3 of RFC 3629. */
  function Encode(c: int): (b: Bits)
    requires Scalar(c)
    ensures 1 <= |b| <= 4
  {
    if c < 0x80 then [c]
    else if c < 0x800 then [0xC0 + c / 64, 0x80 + c % 64]
    else if c < 0x10000 then [0xE0 + c / 4096, 0x80 + c / 64 % 64, 0x80 + c % 64]
    else [0xF0 + c / 262144, 0x80 + c / 4096 % 64, 0x80 + c / 64 % 64, 0x80 + c % 64]
  }

  function EncodeAll(text: seq<int>): (b: Bits)
    requires forall i :: 0 <= i < |text| ==> Scalar(text[i])
  {
    if text == [] then [] else Encode(text[0]) + EncodeAll(text[1..])
  }

  lemma EncodedIsFirst(c: int, rest: Bits)
    requires Scalar(c)
    ensures First(Encode(c) + rest) == |Encode(c)|
  {
    var b := Encode(c) + rest;
    if 0x800 <= c < 0x10000 {
      assert c / 64 % 64 == c / 64 - 64 * (c / 4096);
    } else if c >= 0x10000 {
      assert c / 4096 % 64 == c / 4096 - 64 * (c / 262144);
    }
  }

  /** The six bits that a continuation byte carries. */
  function Six(x: byte): (r: int) { x - 0x80 }

  /** The character that the bytes at the front stand for. */
  function Decode(b: Bits): (c: int)
    requires First(b) > 0
  {
    var lead: int := b[0];
    if First(b) == 1 then lead
    else if First(b) == 2 then (lead - 0xC0) * 64 + Six(b[1])
    else if First(b) == 3 then (lead - 0xE0) * 4096 + Six(b[1]) * 64 + Six(b[2])
    else (lead - 0xF0) * 262144 + Six(b[1]) * 4096 + Six(b[2]) * 64 + Six(b[3])
  }

  lemma Digits64(w: nat, x: nat, y: nat, z: nat)
    requires x < 64 && y < 64 && z < 64
    ensures var c := w * 262144 + x * 4096 + y * 64 + z;
            c / 262144 == w && c / 4096 % 64 == x && c / 64 % 64 == y && c % 64 == z
  {
    var c := w * 262144 + x * 4096 + y * 64 + z;
    assert c / 64 == w * 4096 + x * 64 + y;
    assert c / 4096 == w * 64 + x;
  }

  lemma ThreeBytes(x: nat, y: nat, z: nat)
    requires x < 16 && y < 64 && z < 64
    ensures var c := x * 4096 + y * 64 + z; c / 4096 == x && c / 64 % 64 == y && c % 64 == z
  {
    Digits64(0, x, y, z);
  }

  lemma FirstIsEncoded(b: Bits)
    requires First(b) > 0
    ensures Scalar(Decode(b)) && Encode(Decode(b)) == b[..First(b)]
  {
    if First(b) == 3 {
      ThreeBytes(b[0] - 0xE0, Six(b[1]), Six(b[2]));
    } else if First(b) == 4 {
      Digits64(b[0] - 0xF0, Six(b[1]), Six(b[2]), Six(b[3]));
    }
  }

  /** Well-formed bytes are exactly the encodings of sequences of Unicode scalar values. */
  lemma {:induction false} WellFormedIsEncoded(b: Bits)
    ensures WellFormed(b) <==>
            exists text: seq<int> :: (forall i :: 0 <= i < |text| ==> Scalar(text[i])) && EncodeAll(text) == b
  {
    if text: seq<int> :| (forall i :: 0 <= i < |text| ==> Scalar(text[i])) && EncodeAll(text) == b {
      EncodedIsWellFormed(text);
    }
    if WellFormed(b) {
      var text := DecodeAll(b);
    }
  }

  lemma {:induction false} EncodedIsWellFormed(text: seq<int>)
    requires forall i :: 0 <= i < |text| ==> Scalar(text[i])
    ensures WellFormed(EncodeAll(text))
  {
    if text != [] {
      var rest := EncodeAll(text[1..]);
      EncodedIsWellFormed(text[1..]);
      EncodedIsFirst(text[0], rest);
      assert (Encode(text[0]) + rest)[|Encode(text[0])|..] == rest;
    }
  }

  lemma {:induction false} DecodeAll(b: Bits) returns (text: seq<int>)
    requires WellFormed(b)
    ensures (forall i :: 0 <= i < |text| ==> Scalar(text[i])) && EncodeAll(text) == b
  {
    if b == [] {
      return [];
    }
    FirstIsEncoded(b);
    var rest := DecodeAll(b[First(b)..]);
    text := [Decode(b)] + rest;
    assert text[1..] == rest;
    assert b == b[..First(b)] + b[First(b)..];
  }

  // ---------------------------------------------------------------- marks and recoding

  const BOM: Bits := [0xEF, 0xBB, 0xBF]

  predicate HasBom(b: Bits) { BOM <= b }

  function WithoutBom(b: Bits): (r: Bits)
    ensures |r| == if HasBom(b) then |b| - 3 else |b|
  {
    if HasBom(b) then b[3..] else b
  }

  /** What a decoder that substitutes U+FFFD for ill-formed parts, followed by an encoder, does: the
      result is well formed, well-formed beginnings are left alone, and one byte is worth at most one
      substitute of three bytes. How many substitutes stand for an ill-formed part is left open. */
  ghost predicate Recoding(utf8: Bits -> Bits) {
    && (forall b :: WellFormed(utf8(b)))
    && (forall a, b :: WellFormed(a) ==> utf8(a + b) == a + utf8(b))
    && (forall b :: |utf8(b)| <= 3 * |b|)
  }

  lemma FirstOfPrefix(a: Bits, b: Bits)
    requires First(a) > 0
    ensures First(a + b) == First(a)
  {}

  lemma FirstOfCut(w: Bits, k: nat)
    requires 0 < First(w) <= k <= |w|
    ensures First(w[..k]) == First(w)
  {}

  lemma {:induction false} WellFormedConcat(a: Bits, b: Bits)
    requires WellFormed(a) && WellFormed(b)
    ensures WellFormed(a + b)
  {
    if a == [] {
      assert a + b == b;
    } else {
      var n := First(a);
      FirstOfPrefix(a, b);
      assert (a + b)[n..] == a[n..] + b;
      WellFormedConcat(a[n..], b);
    }
  }

  /** Text is recoded to itself exactly when it is well formed. */
  lemma RecodedExactly(utf8: Bits -> Bits, b: Bits)
    requires Recoding(utf8)
    ensures utf8(b) == b <==> WellFormed(b)
  {
    assert |utf8([])| <= 0;
    assert b + [] == b;
  }

  /** A mark in front makes no difference to being well formed. */
  lemma BomIsText(b: Bits)
    requires HasBom(b)
    ensures WellFormed(b) <==> WellFormed(b[3..])
  {
    assert First(b) == 3;
  }

  /** What a decoder that drops a leading mark makes of b is b exactly when b is well formed and has
      no such mark. */
  lemma CleanExactly(utf8: Bits -> Bits, b: Bits)
    requires Recoding(utf8)
    ensures utf8(WithoutBom(b)) == b <==> WellFormed(b) && !HasBom(b)
  {
    RecodedExactly(utf8, WithoutBom(b));
    if HasBom(b) {
      BomIsText(b);
    }
  }

  /** Well-formed text cut at m is well formed up to less than one character before m. */
  lemma {:induction false} Cut(w: Bits, m: nat) returns (k: nat)
    requires WellFormed(w) && m <= |w|
    ensures k <= m < k + 4 && WellFormed(w[..k])
  {
    var n := First(w);
    if m < n || w == [] {
      return 0;
    }
    k := Cut(w[n..], m - n);
    k := n + k;
    FirstOfCut(w, k);
    assert w[..k][n..] == w[n..][..k - n];
  }

  /** Recoding the beginning of a well-formed text adds at most nine bytes. */
  lemma BeginningGrowsLittle(utf8: Bits -> Bits, w: Bits, o: Bits)
    requires Recoding(utf8) && WellFormed(w) && o <= w
    ensures |utf8(o)| <= |o| + 9
  {
    var k := Cut(w, |o|);
    assert o == w[..k] + o[k..];
    assert utf8(o) == w[..k] + utf8(o[k..]);
  }

  /** The same after dropping a leading mark. */
  lemma CleanBeginningGrowsLittle(utf8: Bits -> Bits, w: Bits, o: Bits)
    requires Recoding(utf8) && WellFormed(w) && o <= w
    ensures |utf8(WithoutBom(o))| <= |o| + 9
  {
    if HasBom(o) {
      BomIsText(w);
      BeginningGrowsLittle(utf8, w[3..], o[3..]);
    } else {
      BeginningGrowsLittle(utf8, w, o);
    }
  }

  // ---------------------------------------------------------------- such a recoding exists

  /** One substitute for each byte that begins no character. */
  function Substitute(b: Bits): (r: Bits)
    ensures |r| <= 3 * |b|
  {
    if b == [] then []
    else if First(b) > 0 then b[..First(b)] + Substitute(b[First(b)..])
    else [0xEF, 0xBF, 0xBD] + Substitute(b[1..])
  }

  lemma {:induction false} SubstituteWellFormed(b: Bits)
    ensures WellFormed(Substitute(b))
  {
    if b != [] {
      var n := First(b);
      if n > 0 {
        SubstituteWellFormed(b[n..]);
        FirstOfCut(b, n);
        assert b[..n][n..] == [];
        WellFormedConcat(b[..n], Substitute(b[n..]));
      } else {
        SubstituteWellFormed(b[1..]);
        var fffd: Bits := [0xEF, 0xBF, 0xBD];
        assert First(fffd) == 3 && fffd[3..] == [];
        WellFormedConcat(fffd, Substitute(b[1..]));
      }
    }
  }

  lemma SubstituteStep(b: Bits, n: nat)
    requires n == First(b) > 0
    ensures Substitute(b) == b[..n] + Substitute(b[n..])
  {}

  lemma {:induction false} SubstituteKeepsBeginning(a: Bits, b: Bits)
    requires WellFormed(a)
    ensures Substitute(a + b) == a + Substitute(b)
  {
    if a == [] {
      assert a + b == b;
    } else {
      var n := First(a);
      FirstOfPrefix(a, b);
      SubstituteKeepsBeginning(a[n..], b);
      SubstituteStep(a + b, n);
      Rejoin(a, b, n, Substitute(b));
    }
  }

  lemma Rejoin(a: Bits, b: Bits, n: nat, t: Bits)
    requires n <= |a|
    ensures (a + b)[..n] == a[..n] && (a + b)[n..] == a[n..] + b && a[..n] + (a[n..] + t) == a + t
  {}

  lemma RecodingExists()
    ensures Recoding(Substitute)
  {
    forall b ensures WellFormed(Substitute(b)) {
      SubstituteWellFormed(b);
    }
    forall a, b | WellFormed(a) ensures Substitute(a + b) == a + Substitute(b) {
      SubstituteKeepsBeginning(a, b);
    }
  }
}
