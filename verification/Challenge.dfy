/** The WebAuthn challenge encoding: the extension's serialiser and parser
    (lib/webauthn/challengeDerivation.ts) and the Android verifier (ChallengeVerifier.java).

    Text is its UTF-8 byte sequence; `utf8` is what decoding and encoding make of bytes that need
    not be text. The two sides share the layout and differ in the version byte, in what they accept,
    in how they decode text and in how they compute the padding. */
module Challenge {
  import opened Bytes
  import opened Utf8

  const NONCE_LENGTH := 32
  const MAX_PROOF_LENGTH := 4096
  const PADDING_BLOCK := 32
  const MAX_RECENT_NONCES := 100

  datatype Components = Components(version: byte, proof: Bits, origin: Bits, code: Bits, nonce: Bits)

  // ---------------------------------------------------------------- layout

  /** Everything before the padding. */
  function Body(c: Components): (r: Bits) {
    [c.version] + BigEndian(|c.proof|, 2) + c.proof + BigEndian(|c.origin|, 2) + c.origin + [4] + c.code + c.nonce
  }

  function Zeros(n: nat): (r: Bits) { seq(n, _ => 0) }

  function PaddingLength(n: nat): (p: nat)
    ensures p < PADDING_BLOCK && (n + p) % PADDING_BLOCK == 0
  {
    var remainder := n % PADDING_BLOCK;
    if remainder == 0 then 0 else PADDING_BLOCK - remainder
  }

  /** The verifier's one-line formula for the same padding. */
  function JavaPaddingLength(n: nat): (p: nat)
    ensures p == PaddingLength(n)
  {
    (32 - (n % 32)) % 32
  }

  // ---------------------------------------------------------------- parsing

  /** Both parsers, with the versions and the proof length they accept; None is a thrown error. */
  function Parse(b: Bits, versions: set<byte>, maxProof: nat): (r: Option<Components>) {
    if |b| < 3 || b[0] !in versions then None
    else
      var proofLength := FromBigEndian(b[1..3]);
      var o := 3 + proofLength;
      if proofLength > maxProof || o + 2 > |b| then None
      else
        var c := o + 2 + FromBigEndian(b[o..o + 2]);
        if c + 5 + NONCE_LENGTH > |b| || b[c] != 4 then None
        else Some(Components(b[0], b[3..o], b[o + 2..c], b[c + 1..c + 5], b[c + 5..c + 5 + NONCE_LENGTH]))
  }

  /** parseChallengeComponents: its decoder drops a leading byte-order mark. */
  function TsParse(utf8: Bits -> Bits, b: Bits): (r: Option<Components>) {
    match Parse(b, {1, 2}, 65535)
    case None => None
    case Some(c) => Some(c.(origin := utf8(WithoutBom(c.origin)), code := utf8(WithoutBom(c.code))))
  }

  ghost predicate Encodable(c: Components, versions: set<byte>, maxProof: nat) {
    && c.version in versions
    && |c.proof| <= maxProof && |c.proof| < 65536
    && |c.origin| < 65536
    && |c.code| == 4
    && |c.nonce| == NONCE_LENGTH
  }

  lemma TwoByteField(n: nat)
    ensures FromBigEndian(BigEndian(n, 2)) == n <==> n < 65536
  {
    Pow256Values();
    BigEndianRoundTrip(n, 2);
  }

  lemma TwoByteDecode(s: Bits)
    requires |s| == 2
    ensures BigEndian(FromBigEndian(s), 2) == s && FromBigEndian(s) < 65536
  {
    Pow256Values();
    var v: int, hi: int, lo: int := FromBigEndian(s), s[0], s[1];
    assert FromBigEndian(s[..1]) == hi by { assert s[..1][..0] == []; }
    assert v == 256 * hi + lo;
    assert BigEndian(v / 256, 1) == BigEndian(v / 256 / 256, 0) + [v / 256 % 256];
  }

  lemma SameTwoBytes(m: nat, n: nat)
    requires BigEndian(m, 2) == BigEndian(n, 2)
    ensures m % 65536 == n % 65536
  {
    TwoBytes(m);
    TwoBytes(n);
  }

  lemma TwoBytes(n: nat)
    ensures BigEndian(n, 2) == [n / 256 % 256, n % 256]
    ensures n % 65536 == n / 256 % 256 * 256 + n % 256
  {
    assert BigEndian(n, 2) == BigEndian(n / 256, 1) + [n % 256];
    assert BigEndian(n / 256, 1) == BigEndian(n / 256 / 256, 0) + [n / 256 % 256];
  }

  /** The byte positions of the fields of a body. */
  lemma BodySlices(c: Components)
    ensures var b, o, k := Body(c), 3 + |c.proof|, 5 + |c.proof| + |c.origin|;
            && |b| == k + 1 + |c.code| + |c.nonce|
            && b[0] == c.version && b[1..3] == BigEndian(|c.proof|, 2) && b[3..o] == c.proof
            && b[o..o + 2] == BigEndian(|c.origin|, 2) && b[o + 2..k] == c.origin
            && b[k] == 4 && b[k + 1..k + 1 + |c.code|] == c.code && b[k + 1 + |c.code|..] == c.nonce
  {}

  lemma BodyVersion(c: Components, v: byte)
    ensures |Body(c)| >= 1 && Body(c.(version := v)) == [v] + Body(c)[1..]
  {
    var b, b' := Body(c), Body(c.(version := v));
    assert |b| == |b'| && b'[0] == v && b'[1..] == b[1..];
  }

  lemma ParseAcceptsBodies(b: Bits, versions: set<byte>, maxProof: nat, c: Components)
    requires Encodable(c, versions, maxProof) && Body(c) <= b
    ensures Parse(b, versions, maxProof) == Some(c)
  {
    var body := Body(c);
    BodySlices(c);
    var o, k := 3 + |c.proof|, 5 + |c.proof| + |c.origin|;
    assert forall i, j :: 0 <= i <= j <= |body| ==> b[i..j] == body[i..j];
    TwoByteField(|c.proof|);
    TwoByteField(|c.origin|);
    assert body[k + 5..] == body[k + 5..k + 37];
  }

  /** A string cut at five places is its pieces. */
  lemma Pieces(b: Bits, o: nat, k: nat)
    requires 3 <= o && o + 2 <= k && k + 37 <= |b|
    ensures b[..k] == [b[0]] + b[1..3] + b[3..o] + b[o..o + 2] + b[o + 2..k]
    ensures b[..k + 37] == b[..k] + [b[k]] + b[k + 1..k + 5] + b[k + 5..k + 37]
  {
    assert b[..o] == [b[0]] + b[1..3] + b[3..o];
    assert b[..k] == b[..o] + b[o..o + 2] + b[o + 2..k];
  }

  lemma Reassembled(b: Bits, o: nat, k: nat, c: Components)
    requires 3 <= o && o + 2 <= k && k + 37 <= |b|
    requires c == Components(b[0], b[3..o], b[o + 2..k], b[k + 1..k + 5], b[k + 5..k + 37]) && b[k] == 4
    requires BigEndian(o - 3, 2) == b[1..3] && BigEndian(k - o - 2, 2) == b[o..o + 2]
    ensures Body(c) == b[..k + 37]
  {
    Pieces(b, o, k);
  }

  lemma ParsedIsBody(b: Bits, versions: set<byte>, maxProof: nat)
    requires Parse(b, versions, maxProof).Some?
    ensures var c := Parse(b, versions, maxProof).value;
            Encodable(c, versions, maxProof) && Body(c) <= b
  {
    var c := Parse(b, versions, maxProof).value;
    TwoByteDecode(b[1..3]);
    var o := 3 + FromBigEndian(b[1..3]);
    TwoByteDecode(b[o..o + 2]);
    var k := o + 2 + FromBigEndian(b[o..o + 2]);
    Reassembled(b, o, k, c);
  }

  /** Exact characterisation: a byte string parses to c exactly when c is encodable and its body
      is a prefix of the string. Everything below follows from it. */
  lemma ParseExactly(b: Bits, versions: set<byte>, maxProof: nat, c: Components)
    ensures Parse(b, versions, maxProof) == Some(c) <==> Encodable(c, versions, maxProof) && Body(c) <= b
  {
    if Parse(b, versions, maxProof) == Some(c) {
      ParsedIsBody(b, versions, maxProof);
    }
    if Encodable(c, versions, maxProof) && Body(c) <= b {
      ParseAcceptsBodies(b, versions, maxProof, c);
    }
  }

  /** Where a string that begins with a body holds its first fields. */
  lemma Fields(b: Bits, c: Components)
    requires Body(c) <= b
    ensures var o := 3 + |c.proof|;
            && |b| >= o + 2 + |c.origin|
            && b[1..3] == BigEndian(|c.proof|, 2) && b[o..o + 2] == BigEndian(|c.origin|, 2)
            && b[o + 2..o + 2 + |c.origin|] == c.origin
  {
    var body, o := Body(c), 3 + |c.proof|;
    BodySlices(c);
    assert b[1..3] == body[1..3] && b[o..o + 2] == body[o..o + 2];
    assert b[o + 2..o + 2 + |c.origin|] == body[o + 2..o + 2 + |c.origin|];
  }

  /** Two bodies at the start of one string: equal proofs, origin lengths equal in their two bytes,
      and the shorter origin is the beginning of the longer one. */
  lemma SharedStart(b: Bits, c: Components, d: Components)
    requires Body(c) <= b && Body(d) <= b && |c.proof| < 65536 && |d.proof| < 65536
    ensures |c.proof| == |d.proof| && |c.origin| % 65536 == |d.origin| % 65536
    ensures |c.origin| <= |d.origin| ==> c.origin <= d.origin
  {
    Fields(b, c);
    Fields(b, d);
    TwoByteField(|c.proof|);
    TwoByteField(|d.proof|);
    SameTwoBytes(|c.origin|, |d.origin|);
    if |c.origin| <= |d.origin| {
      SliceOfSlice(b, 5 + |c.proof|, |c.origin|, |d.origin|);
    }
  }

  lemma LongerByMultiple(m: nat, n: nat)
    requires m < 65536 <= n && m % 65536 == n % 65536
    ensures m + 65536 <= n
  {}

  lemma SliceOfSlice(b: Bits, o: nat, m: nat, n: nat)
    requires m <= n && o + n <= |b|
    ensures b[o..o + m] <= b[o..o + n]
  {}

  // ---------------------------------------------------------------- the extension's serialiser

  /** serializeChallengeComponents; the input's version field is ignored and 2 is written. */
  function TsSerialize(x: Components): (r: Option<Bits>) {
    if |x.proof| > MAX_PROOF_LENGTH || |x.code| != 4 || |x.nonce| != NONCE_LENGTH then None
    else
      var body := Body(x.(version := 2));
      Some(body + Zeros(PaddingLength(|body|)))
  }

  /** The serialiser refuses exactly a proof over 4096 bytes, a code of other than four and a nonce of
      other than 32; what it writes begins with the body of version 2. */
  lemma TsAccepts(x: Components)
    ensures TsSerialize(x).Some? <==> |x.proof| <= 4096 && |x.code| == 4 && |x.nonce| == 32
    ensures TsSerialize(x).Some? ==>
              TsSerialize(x).value[..42 + |x.proof| + |x.origin|] == Body(x.(version := 2))
  {}

  /** The byte layout survives exactly while the origin fits its two-byte length field, which the
      serialiser does not check. */
  lemma RawRoundTrip(x: Components)
    requires TsSerialize(x).Some?
    ensures Parse(TsSerialize(x).value, {1, 2}, 65535) == Some(x.(version := 2)) <==> |x.origin| < 65536
  {
    ParseExactly(TsSerialize(x).value, {1, 2}, 65535, x.(version := 2));
  }

  /** Text that the extension's decoder gives back: well formed, without a leading mark. */
  predicate Clean(t: Bits) { WellFormed(t) && !HasBom(t) }

  /** An origin too long for its length field is read, if anything is, as a beginning of it that is
      shorter by a multiple of 65536. */
  lemma LongOriginIsCut(x: Components, c: Components)
    requires TsSerialize(x).Some? && |x.origin| >= 65536
    requires Parse(TsSerialize(x).value, {1, 2}, 65535) == Some(c)
    ensures c.origin <= x.origin && |c.origin| + 65536 <= |x.origin|
  {
    var out, x2 := TsSerialize(x).value, x.(version := 2);
    ParseExactly(out, {1, 2}, 65535, c);
    SharedStart(out, c, x2);
    LongerByMultiple(|c.origin|, |x.origin|);
  }

  /** So it does not come back. */
  lemma LongOriginIsLost(utf8: Bits -> Bits, x: Components)
    requires Recoding(utf8) && TsSerialize(x).Some? && |x.origin| >= 65536
    ensures var r := TsParse(utf8, TsSerialize(x).value); r.None? || r.value.origin != x.origin
  {
    var r := Parse(TsSerialize(x).value, {1, 2}, 65535);
    if r.Some? && WellFormed(x.origin) {
      LongOriginIsCut(x, r.value);
      CleanBeginningGrowsLittle(utf8, x.origin, r.value.origin);
    }
  }

  /** Round trip, and exactly where it ends: the origin must fit the two-byte length field, which
      the serialiser does not check, and origin and code must be text without a leading byte-order
      mark, which the decoder drops. */
  lemma TsRoundTrip(utf8: Bits -> Bits, x: Components)
    requires Recoding(utf8) && TsSerialize(x).Some?
    ensures TsParse(utf8, TsSerialize(x).value) == Some(x.(version := 2)) <==>
            |x.origin| < 65536 && Clean(x.origin) && Clean(x.code)
  {
    RawRoundTrip(x);
    if |x.origin| < 65536 {
      CleanExactly(utf8, x.origin);
      CleanExactly(utf8, x.code);
    } else {
      LongOriginIsLost(utf8, x);
    }
  }

  lemma TsOutputShape(x: Components)
    requires TsSerialize(x).Some?
    ensures var out, n := TsSerialize(x).value, |Body(x)|;
            && |out| % PADDING_BLOCK == 0 && n <= |out| < n + PADDING_BLOCK
            && forall i :: n <= i < |out| ==> out[i] == 0
  {}

  lemma TsInjective(x: Components, y: Components)
    requires |x.origin| < 65536 && |y.origin| < 65536
    requires TsSerialize(x).Some? && TsSerialize(x) == TsSerialize(y)
    ensures x.(version := 2) == y.(version := 2)
  {
    RawRoundTrip(x);
    RawRoundTrip(y);
  }

  /** A prefix of an output parses exactly when only padding was cut off. */
  lemma TsPrefixParses(utf8: Bits -> Bits, x: Components, k: nat)
    requires TsSerialize(x).Some? && |x.origin| < 65536 && k <= |TsSerialize(x).value|
    ensures TsParse(utf8, TsSerialize(x).value[..k]).Some? <==> k >= |Body(x)|
  {
    var out, c := TsSerialize(x).value, x.(version := 2);
    RawRoundTrip(x);
    var r := Parse(out[..k], {1, 2}, 65535);
    if r.Some? {
      ParseExactly(out[..k], {1, 2}, 65535, r.value);
      ParseExactly(out, {1, 2}, 65535, r.value);
      assert r.value == c;
    }
    if k >= |Body(x)| {
      assert Body(c) <= out[..k];
      ParseExactly(out[..k], {1, 2}, 65535, c);
    }
  }

  /** serialized.set(bytes, offset); offset += bytes.length, on a buffer still zero from there. */
  method Put(buf: array<byte>, offset: nat, bytes: Bits) returns (next: nat)
    requires offset + |bytes| <= buf.Length && forall k :: offset <= k < buf.Length ==> buf[k] == 0
    modifies buf
    ensures next == offset + |bytes| && buf[..next] == old(buf[..offset]) + bytes
    ensures forall k :: next <= k < buf.Length ==> buf[k] == 0
  {
    for i := 0 to |bytes|
      invariant buf[..offset + i] == old(buf[..offset]) + bytes[..i]
      invariant forall k :: offset + i <= k < buf.Length ==> buf[k] == 0
    {
      buf[offset + i] := bytes[i];
      assert buf[..offset + i + 1] == buf[..offset + i] + [bytes[i]];
      assert bytes[..i + 1] == bytes[..i] + [bytes[i]];
    }
    assert bytes[..|bytes|] == bytes;
    next := offset + |bytes|;
  }

  /** A two-byte length and the bytes. */
  method PutSized(buf: array<byte>, offset: nat, bytes: Bits) returns (next: nat)
    requires offset + 2 + |bytes| <= buf.Length && forall k :: offset <= k < buf.Length ==> buf[k] == 0
    modifies buf
    ensures next == offset + 2 + |bytes| && buf[..next] == old(buf[..offset]) + BigEndian(|bytes|, 2) + bytes
    ensures forall k :: next <= k < buf.Length ==> buf[k] == 0
  {
    next := Put(buf, offset, BigEndian(|bytes|, 2));
    next := Put(buf, next, bytes);
  }

  /** The control code with its length byte, and the nonce. */
  method PutRest(buf: array<byte>, offset: nat, code: Bits, nonce: Bits) returns (next: nat)
    requires offset + 1 + |code| + |nonce| <= buf.Length && forall k :: offset <= k < buf.Length ==> buf[k] == 0
    modifies buf
    ensures next == offset + 1 + |code| + |nonce| && buf[..next] == old(buf[..offset]) + [4] + code + nonce
    ensures forall k :: next <= k < buf.Length ==> buf[k] == 0
  {
    next := Put(buf, offset, [4]);
    next := Put(buf, next, code);
    next := Put(buf, next, nonce);
  }

  /** The serialiser as written: a zeroed buffer filled at a moving offset. */
  method TsSerializeBuffer(x: Components) returns (out: array?<byte>)
    ensures out == null <==> TsSerialize(x).None?
    ensures out != null ==> fresh(out) && out[..] == TsSerialize(x).value
  {
    if |x.proof| > MAX_PROOF_LENGTH || |x.code| != 4 || |x.nonce| != NONCE_LENGTH {
      return null;
    }
    var total := 1 + 2 + 2 + 1 + NONCE_LENGTH + |x.proof| + |x.origin| + |x.code|;
    var buf := new byte[total + PaddingLength(total)](_ => 0);
    var offset := Put(buf, 0, [2]);
    offset := PutSized(buf, offset, x.proof);
    offset := PutSized(buf, offset, x.origin);
    assert buf[..offset] == [2] + BigEndian(|x.proof|, 2) + x.proof + BigEndian(|x.origin|, 2) + x.origin;
    offset := PutRest(buf, offset, x.code, x.nonce);
    assert buf[..] == buf[..offset] + Zeros(PaddingLength(total));
    return buf;
  }

  // ---------------------------------------------------------------- the Android verifier

  /** Decoding a byte as US-ASCII and encoding it again: what is not ASCII becomes '?'. */
  function Ascii(code: Bits): (r: Bits)
    ensures |r| == |code|
    ensures r == code <==> forall i :: 0 <= i < |code| ==> code[i] < 128
    ensures forall i :: 0 <= i < |r| ==> r[i] < 128
  {
    seq(|code|, i requires 0 <= i < |code| => if code[i] < 128 then code[i] else 63)
  }

  /** Origin and control code as the text the verifier keeps. */
  function Decoded(utf8: Bits -> Bits, c: Components): (r: Components) {
    c.(origin := utf8(c.origin), code := Ascii(c.code))
  }

  /** parseTlvComponents */
  function JavaParse(utf8: Bits -> Bits, b: Bits): (r: Option<Components>) {
    match Parse(b, {1}, MAX_PROOF_LENGTH)
    case None => None
    case Some(c) => Some(Decoded(utf8, c))
  }

  function JavaSerialize(c: Components): (r: Bits) {
    var body := Body(c.(version := 1));
    body + Zeros(JavaPaddingLength(|body|))
  }

  /** The verifier accepts exactly the strings that begin with a body of version 1 whose proof has at
      most 4096 bytes, whose code has four and whose nonce has 32. */
  lemma JavaAccepts(utf8: Bits -> Bits, b: Bits)
    ensures JavaParse(utf8, b).Some? <==>
            exists c :: Body(c) <= b && c.version == 1 && |c.proof| <= 4096 && |c.origin| < 65536
                        && |c.code| == 4 && |c.nonce| == 32
  {
    if JavaParse(utf8, b).Some? {
      ParsedIsBody(b, {1}, MAX_PROOF_LENGTH);
    }
    if c :| Body(c) <= b && c.version == 1 && |c.proof| <= 4096 && |c.origin| < 65536
            && |c.code| == 4 && |c.nonce| == 32 {
      ParseExactly(b, {1}, MAX_PROOF_LENGTH, c);
    }
  }

  /** Parse then re-serialise: what the verifier hashes. */
  function Canonical(utf8: Bits -> Bits, b: Bits): (r: Option<Bits>) {
    match JavaParse(utf8, b)
    case None => None
    case Some(c) => Some(JavaSerialize(c))
  }

  /** Canonicalisation is the identity on every encoding the verifier's serialiser produces. */
  lemma CanonicalIsIdentity(utf8: Bits -> Bits, c: Components)
    requires Recoding(utf8) && Encodable(c, {1}, MAX_PROOF_LENGTH)
    requires WellFormed(c.origin) && Ascii(c.code) == c.code
    ensures Canonical(utf8, JavaSerialize(c)) == Some(JavaSerialize(c))
  {
    assert c.(version := 1) == c;
    ParseExactly(JavaSerialize(c), {1}, MAX_PROOF_LENGTH, c);
    RecodedExactly(utf8, c.origin);
  }

  /** Nothing after the nonce matters: all inputs with the same body have one canonical form. */
  lemma CanonicalIgnoresTail(utf8: Bits -> Bits, c: Components, tail: Bits, tail2: Bits)
    requires Encodable(c, {1}, MAX_PROOF_LENGTH)
    ensures Canonical(utf8, Body(c) + tail).Some?
    ensures Canonical(utf8, Body(c) + tail) == Canonical(utf8, Body(c) + tail2)
  {
    ParseExactly(Body(c) + tail, {1}, MAX_PROOF_LENGTH, c);
    ParseExactly(Body(c) + tail2, {1}, MAX_PROOF_LENGTH, c);
  }

  /** Bytes that begin their own recoding, of the same length in two bytes, are recoded to themselves. */
  lemma SameOrigin(utf8: Bits -> Bits, o: Bits)
    requires Recoding(utf8) && |o| < 65536 && |o| % 65536 == |utf8(o)| % 65536
    requires |o| <= |utf8(o)| ==> o <= utf8(o)
    ensures utf8(o) == o
  {
    if |o| <= |utf8(o)| {
      BeginningGrowsLittle(utf8, utf8(o), o);
    }
  }

  /** The canonical form begins with the accepted body only if decoding changed nothing. */
  lemma KeptBodyIsDecoded(utf8: Bits -> Bits, c: Components)
    requires Recoding(utf8) && Encodable(c, {1}, MAX_PROOF_LENGTH)
    requires Body(c) <= JavaSerialize(Decoded(utf8, c))
    ensures Decoded(utf8, c) == c
  {
    var d := Decoded(utf8, c);
    var out := JavaSerialize(d);
    assert d.(version := 1) == d;
    SharedStart(out, c, d);
    SameOrigin(utf8, c.origin);
    ParseExactly(out, {1}, MAX_PROOF_LENGTH, c);
    ParseExactly(out, {1}, MAX_PROOF_LENGTH, d);
  }

  /** Decoding changes nothing exactly when the origin is well formed and the code is ASCII. */
  predicate Textual(c: Components)
    requires |c.code| == 4
  {
    WellFormed(c.origin) && forall i :: 0 <= i < 4 ==> c.code[i] < 128
  }

  /** An accepted input keeps its body in the canonical form exactly when its origin is well-formed
      UTF-8 and its control code is ASCII; anything else is rewritten before hashing. */
  lemma CanonicalKeepsBody(utf8: Bits -> Bits, b: Bits, c: Components)
    requires Recoding(utf8) && Parse(b, {1}, MAX_PROOF_LENGTH) == Some(c)
    ensures |c.code| == 4
    ensures Body(c) <= Canonical(utf8, b).value <==> Textual(c)
    ensures Canonical(utf8, b).value == b <==> Textual(c) && b == Body(c) + Zeros(PaddingLength(|Body(c)|))
  {
    ParseExactly(b, {1}, MAX_PROOF_LENGTH, c);
    RecodedExactly(utf8, c.origin);
    var d := Decoded(utf8, c);
    assert d.(version := 1) == d && (d == c <==> Textual(c));
    if Body(c) <= JavaSerialize(d) {
      KeptBodyIsDecoded(utf8, c);
    }
  }

  /** The canonical form is its own canonical form exactly when the recoded origin still fits its
      length field. */
  lemma CanonicalIsStable(utf8: Bits -> Bits, b: Bits, c: Components)
    requires Recoding(utf8) && Parse(b, {1}, MAX_PROOF_LENGTH) == Some(c)
    ensures Canonical(utf8, Canonical(utf8, b).value) == Canonical(utf8, b) <==> |utf8(c.origin)| < 65536
  {
    ParseExactly(b, {1}, MAX_PROOF_LENGTH, c);
    var d := Decoded(utf8, c);
    if |d.origin| < 65536 {
      CanonicalIsIdentity(utf8, d);
    } else {
      LongOriginShrinks(utf8, d);
    }
  }

  lemma JavaLength(c: Components)
    ensures var n := 6 + |c.proof| + |c.origin| + |c.code| + |c.nonce|; n <= |JavaSerialize(c)| < n + 32
  {}

  lemma RecodedIsShorter(utf8: Bits -> Bits, d: Components, c: Components)
    requires Recoding(utf8) && WellFormed(d.origin) && c.origin <= d.origin && |c.origin| + 65536 <= |d.origin|
    requires |c.proof| == |d.proof| && |c.code| == |d.code| && |c.nonce| == |d.nonce|
    ensures |JavaSerialize(Decoded(utf8, c))| < |JavaSerialize(d)|
  {
    BeginningGrowsLittle(utf8, d.origin, c.origin);
    JavaLength(Decoded(utf8, c));
    JavaLength(d);
  }

  lemma LongOriginShrinks(utf8: Bits -> Bits, d: Components)
    requires Recoding(utf8) && d.version == 1 && |d.proof| <= MAX_PROOF_LENGTH
    requires |d.code| == 4 && |d.nonce| == NONCE_LENGTH && WellFormed(d.origin) && |d.origin| >= 65536
    ensures Canonical(utf8, JavaSerialize(d)) != Some(JavaSerialize(d))
  {
    var r := Parse(JavaSerialize(d), {1}, MAX_PROOF_LENGTH);
    if r.Some? {
      JavaOriginIsCut(d, r.value);
      RecodedIsShorter(utf8, d, r.value);
    }
  }

  lemma JavaOriginIsCut(d: Components, c: Components)
    requires d.version == 1 && |d.proof| <= MAX_PROOF_LENGTH && |d.origin| >= 65536
    requires Parse(JavaSerialize(d), {1}, MAX_PROOF_LENGTH) == Some(c)
    ensures c.origin <= d.origin && |c.origin| + 65536 <= |d.origin|
    ensures |c.proof| == |d.proof| && |c.code| == 4 && |c.nonce| == NONCE_LENGTH
  {
    var out := JavaSerialize(d);
    assert d.(version := 1) == d && Body(d) <= out;
    ParseExactly(out, {1}, MAX_PROOF_LENGTH, c);
    SharedStart(out, c, d);
    LongerByMultiple(|c.origin|, |d.origin|);
  }

  /** The two serialisers agree on every byte but the first, and therefore no challenge written by
      the extension is accepted by the verifier. */
  lemma SerialisersAgreeUpToVersion(x: Components)
    requires TsSerialize(x).Some?
    ensures TsSerialize(x).value[1..] == JavaSerialize(x)[1..]
    ensures TsSerialize(x).value[0] == 2 && JavaSerialize(x)[0] == 1
    ensures forall utf8 :: JavaParse(utf8, TsSerialize(x).value) == None
  {
    BodyVersion(x, 2);
    BodyVersion(x, 1);
    var rest := Body(x)[1..];
    var pad := Zeros(PaddingLength(1 + |rest|));
    TailAfterVersion(2, rest, pad);
    TailAfterVersion(1, rest, pad);
  }

  lemma TailAfterVersion(v: byte, rest: Bits, pad: Bits)
    ensures ([v] + rest + pad)[0] == v && ([v] + rest + pad)[1..] == rest + pad
  {}

  // ---------------------------------------------------------------- nonce memory

  /** The last n elements. */
  function Last<T>(s: seq<T>, n: nat): (r: seq<T>) {
    if |s| <= n then s else s[|s| - n..]
  }

  /** The nonces accepted after a sequence of attempts, by the rule over the full history: refused
      exactly when among the last hundred accepted. */
  ghost function Accepted(attempts: seq<Bits>): (r: seq<Bits>) {
    if attempts == [] then []
    else
      var before := Accepted(attempts[..|attempts| - 1]);
      var x := attempts[|attempts| - 1];
      if x in Last(before, MAX_RECENT_NONCES) then before else before + [x]
  }

  /** Between two acceptances of one nonce at least a hundred others were accepted. */
  lemma {:induction false} ReplayNeedsHundredOthers(attempts: seq<Bits>, i: nat, j: nat)
    requires i < j < |Accepted(attempts)| && Accepted(attempts)[i] == Accepted(attempts)[j]
    ensures j - i > 100
  {
    var before := Accepted(attempts[..|attempts| - 1]);
    var x := attempts[|attempts| - 1];
    if j < |before| {
      ReplayNeedsHundredOthers(attempts[..|attempts| - 1], i, j);
    } else {
      var n := |before| - |Last(before, MAX_RECENT_NONCES)|;
      assert i < n || before[n..][i - n] == before[i];
    }
  }

  datatype Verdict = Passed | InvalidNonceLength | NonceReplay | NonceMismatch | ChallengeMismatch | Malformed

  class ChallengeVerifier {
    var recentNonces: seq<Bits>
    const sha256: Bits -> Bits
    const utf8: Bits -> Bits
    ghost var attempts: seq<Bits>

    /** The bounded memory is exactly the last hundred accepted nonces. */
    ghost predicate Valid()
      reads this
    {
      recentNonces == Last(Accepted(attempts), MAX_RECENT_NONCES)
    }

    constructor (sha256: Bits -> Bits, utf8: Bits -> Bits)
      ensures Valid() && attempts == [] && this.sha256 == sha256 && this.utf8 == utf8
    {
      recentNonces, attempts := [], [];
      this.sha256, this.utf8 := sha256, utf8;
    }

    method VerifyNonceUniqueness(nonce: Bits) returns (v: Verdict)
      requires Valid()
      modifies this
      ensures Valid()
      ensures attempts == if |nonce| == NONCE_LENGTH then old(attempts) + [nonce] else old(attempts)
      ensures v == if |nonce| != 32 then InvalidNonceLength
                   else if nonce in Last(Accepted(old(attempts)), 100) then NonceReplay
                   else Passed
      ensures v.Passed? ==> nonce in recentNonces
    {
      if |nonce| != NONCE_LENGTH {
        return InvalidNonceLength;
      }
      attempts := attempts + [nonce];
      assert attempts[..|attempts| - 1] == old(attempts);
      if nonce in recentNonces {
        return NonceReplay;
      }
      recentNonces := recentNonces + [nonce];
      assert recentNonces[|recentNonces| - 1] == nonce;
      if |recentNonces| > MAX_RECENT_NONCES {
        recentNonces := recentNonces[1..];
        assert recentNonces[|recentNonces| - 1] == nonce;
      }
      return Passed;
    }

    /** verifyFull: the embedded nonce must be the session's and unseen, and the challenge must be
        the hash of the canonical form. The nonce is spent before the challenge is compared. */
    method VerifyFull(tlv: Bits, challenge: Bits, sessionNonce: Bits) returns (v: Verdict)
      requires Valid()
      modifies this
      ensures Valid()
      ensures v.Passed? <==>
        && JavaParse(utf8, tlv).Some? && JavaParse(utf8, tlv).value.nonce == sessionNonce
        && sessionNonce !in Last(Accepted(old(attempts)), MAX_RECENT_NONCES)
        && sha256(Canonical(utf8, tlv).value) == challenge
      ensures attempts == if JavaParse(utf8, tlv).Some? && JavaParse(utf8, tlv).value.nonce == sessionNonce
                          then old(attempts) + [sessionNonce] else old(attempts)
      ensures v.ChallengeMismatch? ==> sessionNonce in recentNonces
    {
      var parsed := JavaParse(utf8, tlv);
      if parsed.None? {
        return Malformed;
      }
      ParsedIsBody(tlv, {1}, MAX_PROOF_LENGTH);
      if parsed.value.nonce != sessionNonce {
        return NonceMismatch;
      }
      v := VerifyNonceUniqueness(parsed.value.nonce);
      if v != Passed {
        return;
      }
      if sha256(JavaSerialize(parsed.value)) != challenge {
        return ChallengeMismatch;
      }
      return Passed;
    }
  }
}
