/** The check-digit tests of lib/piiFilter.ts: IBAN (ISO/IEC 7064 MOD 97-10) and Luhn (Annex B of
    ISO/IEC 7812-1). Inputs are the cleaned strings: blanks removed, letters in upper case. */
module CheckDigits {
  import opened Bytes

  predicate IsDigit(c: char) { '0' <= c <= '9' }
  predicate IsLetter(c: char) { 'A' <= c <= 'Z' }

  predicate AllDigits(s: string) { forall i :: 0 <= i < |s| ==> IsDigit(s[i]) }
  predicate Alphanumeric(s: string) { forall i :: 0 <= i < |s| ==> IsDigit(s[i]) || IsLetter(s[i]) }

  /** The value of a character in the expanded number: 0-9, and 10-35 for the letters. */
  function Val(c: char): (v: int) {
    if IsLetter(c) then c as int - 55 else c as int - 48
  }

  function ParseDigit(c: char): (r: Option<nat>) { if IsDigit(c) then Some(c as int - 48) else None }

  // ---------------------------------------------------------------- IBAN: the number

  /** The number written by a string of letters and digits, a letter filling two places. */
  function Value(s: string): (r: int) {
    if s == [] then 0
    else Value(s[..|s| - 1]) * Base(s[|s| - 1]) + Val(s[|s| - 1])
  }

  function Base(c: char): (r: int) { if IsLetter(c) then 100 else 10 }

  /** How far a string of this shape shifts what stands before it. */
  function Weight(s: string): (r: int) {
    if s == [] then 1 else Weight(s[..|s| - 1]) * Base(s[|s| - 1])
  }

  function Rearranged(s: string): (r: string)
    requires |s| >= 4
  {
    s[4..] + s[..4]
  }

  /** What the check means: 15 to 34 letters and digits whose expanded number is 1 modulo 97. */
  predicate ValidIban(s: string) {
    15 <= |s| <= 34 && Alphanumeric(s) && Value(Rearranged(s)) % 97 == 1
  }

  // ---------------------------------------------------------------- IBAN: the loop

  function Expanded(c: char): (r: string) {
    if IsLetter(c) then
      var n := c as int - 55;
      [(n / 10 + 48) as char, (n % 10 + 48) as char]
    else [c]
  }

  function Expand(s: string): (r: string) {
    if s == [] then [] else Expand(s[..|s| - 1]) + Expanded(s[|s| - 1])
  }

  /** The running remainder, where parseInt of a non-digit makes the whole result NaN (None). */
  function Running(t: string): (r: Option<int>) {
    if t == [] then Some(0)
    else
      match (Running(t[..|t| - 1]), ParseDigit(t[|t| - 1]))
      case (Some(r), Some(d)) => Some((r * 10 + d) % 97)
      case _ => None
  }

  lemma RunningSnoc(t: string, c: char)
    ensures Running(t + [c]) ==
            match (Running(t), ParseDigit(c))
            case (Some(r), Some(d)) => Some((r * 10 + d) % 97)
            case _ => None
  {
    assert (t + [c])[..|t|] == t;
  }

  lemma ModStep(x: int, y: int, k: int, d: int)
    requires x % 97 == y % 97
    ensures (x * k + d) % 97 == (y * k + d) % 97
  {
    var m := x / 97 - y / 97;
    assert x == y + 97 * m;
    assert x * k + d == (y * k + d) + 97 * (m * k);
  }

  lemma RunDigit(t: string, c: char, v: int)
    requires IsDigit(c) && Running(t) == Some(v % 97)
    ensures Running(t + [c]) == Some((v * 10 + (c as int - 48)) % 97)
  {
    RunningSnoc(t, c);
    ModStep(v % 97, v, 10, c as int - 48);
  }

  lemma Regroup(v: int, n: int)
    ensures (v * 10 + n / 10) * 10 + n % 10 == v * 100 + n
  {}

  lemma LetterDigits(c: char)
    requires IsLetter(c)
    ensures |Expanded(c)| == 2 && IsDigit(Expanded(c)[0]) && IsDigit(Expanded(c)[1])
    ensures Expanded(c)[0] as int - 48 == Val(c) / 10 && Expanded(c)[1] as int - 48 == Val(c) % 10
  {}

  lemma RunLetter(t: string, c: char, v: int)
    requires IsLetter(c) && Running(t) == Some(v % 97)
    ensures Running(t + Expanded(c)) == Some((v * 100 + Val(c)) % 97)
  {
    var n, e := Val(c), Expanded(c);
    LetterDigits(c);
    RunDigit(t, e[0], v);
    RunDigit(t + [e[0]], e[1], v * 10 + n / 10);
    assert (t + [e[0]]) + [e[1]] == t + e;
    Regroup(v, n);
  }

  lemma RunOneMore(t: string, c: char, v: int, w: int)
    requires (IsDigit(c) || IsLetter(c)) && Running(t) == Some(v % 97) && w == v * Base(c) + Val(c)
    ensures Running(t + Expanded(c)) == Some(w % 97)
  {
    if IsLetter(c) {
      RunLetter(t, c, v);
    } else {
      RunDigit(t, c, v);
    }
  }

  lemma RunNaN(t: string, c: char)
    requires Running(t) == None || !(IsDigit(c) || IsLetter(c))
    ensures Running(t + Expanded(c)) == None
  {
    var e := Expanded(c);
    RunningSnoc(t, e[0]);
    if IsLetter(c) {
      RunningSnoc(t + [e[0]], e[1]);
      assert (t + [e[0]]) + [e[1]] == t + e;
    }
  }

  function Remainder(s: string): (r: Option<int>) { if Alphanumeric(s) then Some(Value(s) % 97) else None }

  /** Taking the remainder digit by digit gives the remainder of the whole expanded number. */
  lemma {:induction false} RunningIsRemainder(s: string)
    ensures Running(Expand(s)) == Remainder(s)
  {
    if s != [] {
      var p, c := s[..|s| - 1], s[|s| - 1];
      assert s == p + [c];
      RunningIsRemainder(p);
      RemainderOneMore(p, c);
    }
  }

  lemma AlphanumericOneMore(p: string, c: char)
    ensures Alphanumeric(p + [c]) <==> Alphanumeric(p) && (IsDigit(c) || IsLetter(c))
  {
    var s := p + [c];
    assert s[|p|] == c && forall i :: 0 <= i < |p| ==> s[i] == p[i];
  }

  lemma ValueOneMore(s: string, c: char)
    ensures Value(s + [c]) == Value(s) * Base(c) + Val(c)
  {
    assert (s + [c])[..|s|] == s;
  }

  lemma ExpandOneMore(s: string, c: char)
    ensures Expand(s + [c]) == Expand(s) + Expanded(c)
  {
    assert (s + [c])[..|s|] == s;
  }

  lemma RemainderOneMore(p: string, c: char)
    requires Running(Expand(p)) == Remainder(p)
    ensures Running(Expand(p + [c])) == Remainder(p + [c])
  {
    ExpandOneMore(p, c);
    AlphanumericOneMore(p, c);
    if Alphanumeric(p + [c]) {
      ValueOneMore(p, c);
      RunOneMore(Expand(p), c, Value(p), Value(p + [c]));
    } else {
      RunNaN(Expand(p), c);
    }
  }

  method IsValidIban(cleaned: string) returns (ok: bool)
    ensures ok <==> ValidIban(cleaned)
  {
    if |cleaned| < 15 || |cleaned| > 34 {
      return false;
    }
    var rearranged := cleaned[4..] + cleaned[..4];
    var numeric: string := "";
    for i := 0 to |rearranged|
      invariant numeric == Expand(rearranged[..i])
    {
      assert rearranged[..i + 1][..i] == rearranged[..i];
      numeric := numeric + Expanded(rearranged[i]);
    }
    assert rearranged[..|rearranged|] == rearranged;
    var remainder: Option<int> := Some(0);
    for i := 0 to |numeric|
      invariant remainder == Running(numeric[..i])
    {
      assert numeric[..i + 1] == numeric[..i] + [numeric[i]];
      RunningSnoc(numeric[..i], numeric[i]);
      var d := ParseDigit(numeric[i]);
      remainder := if remainder.Some? && d.Some? then Some((remainder.value * 10 + d.value) % 97) else None;
    }
    assert numeric[..|numeric|] == numeric;
    RunningIsRemainder(rearranged);
    RearrangedAlphanumeric(cleaned);
    return remainder == Some(1);
  }

  lemma RearrangedAlphanumeric(s: string)
    requires |s| >= 4
    ensures Alphanumeric(Rearranged(s)) <==> Alphanumeric(s)
  {
    var t := Rearranged(s);
    assert forall i :: 0 <= i < |s| ==> s[i] == t[if i >= 4 then i - 4 else |s| - 4 + i];
  }

  // ---------------------------------------------------------------- IBAN: error detection

  lemma {:induction false} ValueOfConcat(a: string, b: string)
    ensures Value(a + b) == Value(a) * Weight(b) + Value(b)
  {
    if b == [] {
      assert a + b == a;
    } else {
      var p, c := b[..|b| - 1], b[|b| - 1];
      assert (a + b)[..|a + b| - 1] == a + p;
      ValueOfConcat(a, p);
      assert Value(a + b) == (Value(a) * Weight(p) + Value(p)) * Base(c) + Val(c);
      Distribute(Value(a), Weight(p), Value(p), Base(c));
    }
  }

  lemma Distribute(x: int, w: int, y: int, k: int)
    ensures (x * w + y) * k == x * (w * k) + y * k
  {}

  /** 10 is invertible modulo 97 (10 * 68 = 7 * 97 + 1). */
  lemma CancelTen(y: int)
    requires (y * 10) % 97 == 0
    ensures y % 97 == 0
  {
    var m := y * 10 / 97;
    assert y == 97 * (68 * m - 7 * y);
  }

  lemma {:induction false} CancelWeight(x: int, b: string)
    requires (x * Weight(b)) % 97 == 0
    ensures x % 97 == 0
  {
    if b != [] {
      var p, c := b[..|b| - 1], b[|b| - 1];
      var y := x * Weight(p);
      assert x * Weight(b) == y * Base(c) by { Distribute(x, Weight(p), 0, Base(c)); }
      if IsLetter(c) {
        assert y * 100 == (y * 10) * 10;
        CancelTen(y * 10);
      }
      CancelTen(y);
      CancelWeight(x, p);
    }
  }

  lemma SameRemainder(x: int, y: int)
    ensures x % 97 == y % 97 <==> (x - y) % 97 == 0
  {}

  lemma ThreeParts(a: string, m: string, b: string)
    ensures Value(a + m + b) == Value(a) * (Weight(m) * Weight(b)) + Value(m) * Weight(b) + Value(b)
  {
    ValueOfConcat(a + m, b);
    ValueOfConcat(a, m);
    Distribute(Value(a), Weight(m), Value(m), Weight(b));
  }

  lemma MiddleGap(a: string, m: string, m': string, b: string)
    requires Weight(m) == Weight(m')
    ensures Value(a + m + b) - Value(a + m' + b) == (Value(m) - Value(m')) * Weight(b)
  {
    ThreeParts(a, m, b);
    ThreeParts(a, m', b);
    Distribute(1, Value(m), -Value(m'), Weight(b));
  }

  /** Replacing the middle of a string keeps the remainder exactly when the middles agree on it. */
  lemma MiddleDecides(a: string, m: string, m': string, b: string)
    requires Weight(m) == Weight(m')
    ensures Value(a + m + b) % 97 == Value(a + m' + b) % 97 <==> Value(m) % 97 == Value(m') % 97
  {
    MiddleGap(a, m, m', b);
    SameRemainder(Value(a + m + b), Value(a + m' + b));
    SameRemainder(Value(m), Value(m'));
    WeightDecides(Value(a + m + b) - Value(a + m' + b), Value(m) - Value(m'), b);
  }

  lemma WeightDecides(g: int, x: int, b: string)
    requires g == x * Weight(b)
    ensures g % 97 == 0 <==> x % 97 == 0
  {
    if g % 97 == 0 {
      CancelWeight(x, b);
    }
    if x % 97 == 0 {
      ModStep(x, 0, Weight(b), 0);
    }
  }

  lemma SmallValues(c: char, d: char)
    ensures Value([c]) == Val(c) && Weight([c]) == Base(c)
    ensures Value([c, d]) == Val(c) * Base(d) + Val(d) && Weight([c, d]) == Base(c) * Base(d)
  {
    assert [c][..0] == [];
    assert [c, d][..1] == [c];
  }

  lemma CharsDecide(c: char, d: char)
    requires (IsDigit(c) && IsDigit(d)) || (IsLetter(c) && IsLetter(d))
    ensures Value([c]) % 97 == Value([d]) % 97 <==> c == d
    ensures Weight([c]) == Weight([d])
  {
    SmallValues(c, d);
    SmallValues(d, c);
  }

  lemma RearrangedUpdate(s: string, i: nat, c: char) returns (a: string, b: string)
    requires 4 <= |s| && i < |s|
    ensures Rearranged(s) == a + [s[i]] + b && Rearranged(s[i := c]) == a + [c] + b
  {
    var t := Rearranged(s);
    var r := if i >= 4 then i - 4 else |s| - 4 + i;
    a, b := t[..r], t[r + 1..];
    assert t[r] == s[i];
    assert Rearranged(s[i := c]) == t[r := c];
  }

  /** Replacing one digit by a digit, or one letter by a letter, is always detected. */
  lemma IbanDetectsSubstitution(s: string, i: nat, c: char)
    requires ValidIban(s) && i < |s|
    requires (IsDigit(s[i]) && IsDigit(c)) || (IsLetter(s[i]) && IsLetter(c))
    ensures ValidIban(s[i := c]) <==> c == s[i]
  {
    var a, b := RearrangedUpdate(s, i, c);
    CharsDecide(s[i], c);
    MiddleDecides(a, [s[i]], [c], b);
  }

  /** The pairs whose exchange leaves the remainder alone: B with 1, M with 2, X with 3. */
  predicate Confusable(c: char, d: char) {
    (c, d) in {('B', '1'), ('1', 'B'), ('M', '2'), ('2', 'M'), ('X', '3'), ('3', 'X')}
  }

  /** 9 and 99 are invertible modulo 97 too (9 * 54 = 5 * 97 + 1, 99 * 49 = 50 * 97 + 1). */
  lemma CancelNine(y: int)
    requires (9 * y) % 97 == 0
    ensures y % 97 == 0
  {
    var m := 9 * y / 97;
    assert y == 97 * (54 * m - 5 * y);
  }

  lemma CancelNinetyNine(y: int)
    requires (99 * y) % 97 == 0
    ensures y % 97 == 0
  {
    var m := 99 * y / 97;
    assert y == 97 * (49 * m - 50 * y);
  }

  /** A difference below 97 is zero if 9 or 99 times it is a multiple of 97. */
  lemma SmallDifference(y: int)
    requires -97 < y < 97
    ensures (9 * y) % 97 == 0 <==> y == 0
    ensures (99 * y) % 97 == 0 <==> y == 0
  {
    if (9 * y) % 97 == 0 {
      CancelNine(y);
    }
    if (99 * y) % 97 == 0 {
      CancelNinetyNine(y);
    }
  }

  lemma LikePair(x: int, y: int)
    requires 0 <= x <= 35 && 0 <= y <= 35
    ensures (x * 10 + y) % 97 == (y * 10 + x) % 97 <==> x == y
    ensures (x * 100 + y) % 97 == (y * 100 + x) % 97 <==> x == y
  {
    SmallDifference(x - y);
    SameRemainder(x * 10 + y, y * 10 + x);
    SameRemainder(x * 100 + y, y * 100 + x);
  }

  /** A letter worth x and a digit y. */
  lemma MixedPair(x: int, y: int)
    requires 10 <= x <= 35 && 0 <= y <= 9
    ensures (x * 10 + y) % 97 == (y * 100 + x) % 97 <==> x == 11 * y
  {
    SmallDifference(x - 11 * y);
    SameRemainder(x * 10 + y, y * 100 + x);
  }

  lemma ConfusableMeans(c: char, d: char)
    requires IsLetter(c) && IsDigit(d)
    ensures Confusable(c, d) <==> Val(c) == 11 * Val(d)
    ensures Confusable(d, c) <==> Val(c) == 11 * Val(d)
  {}

  lemma PairDecides(c: char, d: char)
    requires IsDigit(c) || IsLetter(c)
    requires IsDigit(d) || IsLetter(d)
    ensures (Val(c) * Base(d) + Val(d)) % 97 == (Val(d) * Base(c) + Val(c)) % 97 <==> c == d || Confusable(c, d)
  {
    if IsLetter(c) && IsDigit(d) {
      MixedPair(Val(c), Val(d));
      ConfusableMeans(c, d);
    } else if IsDigit(c) && IsLetter(d) {
      MixedPair(Val(d), Val(c));
      ConfusableMeans(d, c);
    } else {
      LikePair(Val(c), Val(d));
    }
  }

  /** Exchanging two neighbours (in the rearranged order) of a valid IBAN is detected unless they
      are equal or one of three letter-digit pairs. In particular two unequal digits always are. */
  lemma IbanDetectsTransposition(s: string, s': string, a: string, c: char, d: char, b: string)
    requires ValidIban(s) && |s'| == |s|
    requires Rearranged(s) == a + [c, d] + b && Rearranged(s') == a + [d, c] + b
    ensures ValidIban(s') <==> c == d || Confusable(c, d)
  {
    RearrangedAlphanumeric(s);
    RearrangedAlphanumeric(s');
    var t, t' := Rearranged(s), Rearranged(s');
    assert t[|a|] == c && t[|a| + 1] == d;
    assert forall i :: 0 <= i < |t| ==> t'[i] == t[if i == |a| then i + 1 else if i == |a| + 1 then i - 1 else i];
    SmallValues(c, d);
    SmallValues(d, c);
    MiddleDecides(a, [c, d], [d, c], b);
    PairDecides(c, d);
  }

  // ---------------------------------------------------------------- IBAN: the two ends

  /** The e-th power of 10 modulo 97: how far e digits shift what stands before them. */
  function Power(e: nat): (r: nat) { Weight(seq(e, _ => '0')) % 97 }

  lemma PowerStep(e: nat)
    ensures Power(e + 1) == Power(e) * 10 % 97 && Power(e) < 97
    ensures e == 0 ==> Power(e) == 1
  {
    var zeros := seq(e, _ => '0');
    assert seq(e + 1, _ => '0')[..e] == zeros;
    ModOfMod(Weight(zeros));
    ModStep(Weight(zeros) % 97, Weight(zeros), 10, 0);
  }

  lemma ModOfMod(x: int)
    ensures (x % 97) % 97 == x % 97
  {}

  lemma MulStep(p: nat, x: nat, y: nat)
    requires p == x * y % 97
    ensures p * 10 % 97 == x * (y * 10 % 97) % 97
  {
    ModOfMod(x * y);
    ModStep(p, x * y, 10, 0);
    ModOfMod(y * 10);
    ModStep(y * 10 % 97, y * 10, x, 0);
    assert x * y * 10 == (y * 10) * x;
    assert (y * 10 % 97) * x == x * (y * 10 % 97);
  }

  lemma {:induction false} PowerOfSum(a: nat, b: nat)
    ensures Power(a + b) == Power(a) * Power(b) % 97
  {
    if b == 0 {
      PowerStep(a);
      PowerStep(0);
    } else {
      PowerOfSum(a, b - 1);
      PowerStep(a + b - 1);
      PowerStep(b - 1);
      MulStep(Power(a + b - 1), Power(a), Power(b - 1));
    }
  }

  /** Where two powers are 1, so is that of a common divisor of their exponents. */
  lemma {:induction false} CommonDivisor(a: nat, b: nat) returns (g: nat, x: nat, y: nat)
    requires a > 0 && Power(a) == 1 && Power(b) == 1
    ensures g > 0 && Power(g) == 1 && a == g * x && b == g * y
    decreases a + b, if a > b then 1 else 0
  {
    if b == 0 {
      g, x, y := a, 1, 0;
    } else if a > b {
      g, y, x := CommonDivisor(b, a);
    } else {
      PowerOfSum(a, b - a);
      PowerStep(b - a);
      g, x, y := CommonDivisor(a, b - a);
      assert g * (x + y) == g * x + g * y;
      y := x + y;
    }
  }

  lemma {:induction false} PowerOfMultiple(g: nat, k: nat)
    requires Power(g) == 1
    ensures Power(g * k) == 1
  {
    PowerStep(0);
    if k > 0 {
      PowerOfMultiple(g, k - 1);
      assert g * k == g + g * (k - 1);
      PowerOfSum(g, g * (k - 1));
    }
  }

  lemma AddExponents(m: nat, v: nat, n: nat, w: nat) returns (k: nat)
    requires Power(m) == v && Power(n) == w
    ensures k == m + n && Power(k) == v * w % 97
  {
    PowerOfSum(m, n);
    k := m + n;
  }

  lemma KnownPowers() returns (a: nat, b: nat, c: nat)
    ensures a == 32 && Power(a) == 61 && b == 48 && Power(b) == 96 && c == 96 && Power(c) == 1
  {
    PowerStep(0);
    var n := AddExponents(1, 10, 1, 10);
    n := AddExponents(n, 3, n, 3);
    n := AddExponents(n, 9, n, 9);
    n := AddExponents(n, 81, n, 81);
    a := AddExponents(n, 62, n, 62);
    b := AddExponents(a, 61, n, 62);
    c := AddExponents(b, 96, b, 96);
  }

  /** A divisor of 96 below 96 divides 48 or 32. */
  lemma DivisorsOf96(g: nat, y: nat) returns (k: nat)
    requires 96 == g * y && g < 96
    ensures g * k == 48 || g * k == 32
  {
    if y % 2 == 0 {
      k := y / 2;
      assert g * y == 2 * (g * k);
    } else {
      k := y / 3;
      assert 0 < y <= 96;
      OddDivisor(g, y);
    }
  }

  lemma OddDivisor(g: nat, y: nat)
    requires 96 == g * y && g < 96 && y % 2 == 1
    ensures y == 3 && g == 32
  {
    assert y >= 5 ==> g <= 19;
  }

  /** 10 has order 96 modulo 97. */
  lemma PowerIsNotOne(e: nat)
    requires 0 < e < 96
    ensures Power(e) != 1
  {
    var a, b, c := KnownPowers();
    if Power(e) == 1 {
      var g, x, y := CommonDivisor(e, c);
      Small(g, x, e);
      var k := DivisorsOf96(g, y);
      PowerOfMultiple(g, k);
    }
  }

  lemma Small(g: nat, x: nat, e: nat)
    requires e == g * x && e > 0
    ensures g <= e
  {}

  /** The number of digits of the expanded string. */
  function Width(s: string): (n: nat) {
    if s == [] then 0 else Width(s[..|s| - 1]) + if IsLetter(s[|s| - 1]) then 2 else 1
  }

  lemma {:induction false} WeightIsPower(s: string)
    ensures Weight(s) % 97 == Power(Width(s)) && |s| <= Width(s) <= 2 * |s|
  {
    PowerStep(0);
    if s != [] {
      var p, c := s[..|s| - 1], s[|s| - 1];
      WeightIsPower(p);
      WeightOneMore(Weight(p), Width(p), c);
    }
  }

  lemma WeightOneMore(w: int, n: nat, c: char)
    requires w % 97 == Power(n)
    ensures w * Base(c) % 97 == Power(if IsLetter(c) then n + 2 else n + 1)
  {
    WeightOneDigit(w, n);
    if IsLetter(c) {
      WeightOneDigit(w * 10, n + 1);
    }
  }

  lemma WeightOneDigit(w: int, n: nat)
    requires w % 97 == Power(n)
    ensures (w * 10) % 97 == Power(n + 1)
  {
    PowerStep(n);
    ModOfMod(w);
    ModStep(w, w % 97, 10, 0);
  }

  lemma NoFactor(x: nat, q: nat)
    requires x * q == 97 && q > 1
    ensures x == 1
  {
    assert x >= 10 ==> q <= 9;
  }

  lemma Regrouped(x: int, q: int, z: int, m: int)
    requires x * z == 97 * m
    ensures (97 - x * q) * z == 97 * (z - q * m)
  {
    assert (x * q) * z == q * (x * z);
    assert q * (97 * m) == 97 * (q * m);
  }

  lemma DropMultiples(x: nat, q: nat, r: nat, z: int)
    requires 97 == x * q + r && (x * z) % 97 == 0
    ensures (r * z) % 97 == 0
  {
    Regrouped(x, q, z, x * z / 97);
  }

  /** 97 is prime. */
  lemma {:induction false} CancelSmall(x: nat, z: int)
    requires 0 < x < 97 && (x * z) % 97 == 0
    ensures z % 97 == 0
  {
    var q, r := 97 / x, 97 % x;
    if x > 1 {
      DropMultiples(x, q, r, z);
      if r == 0 {
        NoFactor(x, q);
      } else {
        CancelSmall(r, z);
      }
    }
  }

  lemma CancelFactor(x: int, z: int)
    requires -97 < x < 97 && z % 97 != 0
    ensures (x * z) % 97 == 0 <==> x == 0
  {
    if x > 0 && (x * z) % 97 == 0 {
      CancelSmall(x, z);
    }
    if x < 0 && (x * z) % 97 == 0 {
      assert (-x) * z == -(x * z);
      CancelSmall(-x, z);
    }
  }

  lemma EndsAlgebra(x: int, y: int, w: int, rest: int)
    ensures (x * w + rest + y) - (y * w + rest + x) == (x - y) * (w - 1)
  {}

  /** Exchanging the two ends of a string moves its value by their difference times one less than
      the shift between them. */
  lemma EndsGap(mid: string, c: char, d: char)
    requires Base(c) == Base(d)
    ensures Value([d] + mid + [c]) - Value([c] + mid + [d]) == (Val(d) - Val(c)) * (Weight(mid + [c]) - 1)
  {
    ThreeParts([d], mid, [c]);
    ThreeParts([c], mid, [d]);
    SmallValues(c, d);
    SmallValues(d, c);
    assert (mid + [c])[..|mid|] == mid;
    EndsAlgebra(Val(d), Val(c), Weight(mid + [c]), Value(mid) * Base(c));
  }

  lemma GapDecides(u: int, v: int, x: int, w: int)
    requires u - v == x * (w - 1) && -97 < x < 97 && w % 97 != 1
    ensures u % 97 == v % 97 <==> x == 0
  {
    SameRemainder(u, v);
    SameRemainder(w, 1);
    CancelFactor(x, w - 1);
  }

  /** It is noticed when the string has fewer than 96 digits behind the first character. */
  lemma EndsDecide(mid: string, c: char, d: char)
    requires (IsDigit(c) && IsDigit(d)) || (IsLetter(c) && IsLetter(d))
    requires Width(mid + [c]) < 96
    ensures Value([d] + mid + [c]) % 97 == Value([c] + mid + [d]) % 97 <==> c == d
  {
    var w := Weight(mid + [c]);
    WeightIsPower(mid + [c]);
    PowerIsNotOne(Width(mid + [c]));
    EndsGap(mid, c, d);
    GapDecides(Value([d] + mid + [c]), Value([c] + mid + [d]), Val(d) - Val(c), w);
  }

  lemma EndsSwapped(s: string)
    requires |s| >= 5
    ensures var s', mid := s[3 := s[4]][4 := s[3]], s[5..] + s[..3];
            && Rearranged(s) == [s[4]] + mid + [s[3]] && Rearranged(s') == [s[3]] + mid + [s[4]]
            && (Alphanumeric(s) ==> Alphanumeric(s'))
  {}

  /** Exchanging the fourth and the fifth character, which the rearrangement moves to its two ends,
      is always detected between two digits or two letters: 10 has order 96 modulo 97, and no
      rearranged string is that long. */
  lemma IbanDetectsExchangeAtEnds(s: string)
    requires ValidIban(s)
    requires (IsDigit(s[3]) && IsDigit(s[4])) || (IsLetter(s[3]) && IsLetter(s[4]))
    ensures ValidIban(s[3 := s[4]][4 := s[3]]) <==> s[3] == s[4]
  {
    var mid := s[5..] + s[..3];
    EndsSwapped(s);
    WeightIsPower(mid + [s[3]]);
    EndsDecide(mid, s[3], s[4]);
  }

  lemma {:induction false} LeadingZeros(n: nat)
    ensures Value(seq(n, _ => '0')) == 0
  {
    if n > 0 {
      LeadingZeros(n - 1);
      assert seq(n, _ => '0')[..n - 1] == seq(n - 1, _ => '0');
    }
  }

  lemma ValueOfTail(zeros: string)
    requires Value(zeros) == 0
    ensures Value(zeros + ['B', '1'] + "GB28") == 111161128
  {
    ValueOneMore(zeros, 'B');
    ValueOneMore(zeros + ['B'], '1');
    ValueOneMore(zeros + ['B'] + ['1'], 'G');
    ValueOneMore(zeros + ['B'] + ['1'] + ['G'], 'B');
    ValueOneMore(zeros + ['B'] + ['1'] + ['G'] + ['B'], '2');
    ValueOneMore(zeros + ['B'] + ['1'] + ['G'] + ['B'] + ['2'], '8');
    assert zeros + ['B', '1'] + "GB28" == zeros + ['B'] + ['1'] + ['G'] + ['B'] + ['2'] + ['8'];
  }

  lemma ValueOfHead(zeros: string)
    requires Value(zeros) == 0
    ensures Value(zeros + "GB18") == 161118
  {
    ValueOneMore(zeros, 'G');
    ValueOneMore(zeros + ['G'], 'B');
    ValueOneMore(zeros + ['G'] + ['B'], '1');
    ValueOneMore(zeros + ['G'] + ['B'] + ['1'], '8');
    assert zeros + "GB18" == zeros + ['G'] + ['B'] + ['1'] + ['8'];
  }

  /** The lengths accepted are those from 15 to 34: zeros behind one head, which a running remainder
      does not see, are a valid IBAN exactly at those lengths. */
  lemma IbanLengths(n: nat)
    ensures ValidIban("GB18" + seq(n, _ => '0')) <==> 15 <= n + 4 <= 34
  {
    var zeros := seq(n, _ => '0');
    var s := "GB18" + zeros;
    LeadingZeros(n);
    ValueOfHead(zeros);
    assert Rearranged(s) == zeros + "GB18";
    assert forall i :: 4 <= i < |s| ==> s[i] == '0';
  }

  /** Such a pair in a valid IBAN: its exchange is another valid IBAN. */
  lemma IbanTranspositionMissed()
    ensures ValidIban("GB28000000000B1") && ValidIban("GB280000000001B")
  {
    var zeros := seq(9, _ => '0');
    LeadingZeros(9);
    ValueOfTail(zeros);
    var s := "GB28000000000B1";
    assert zeros == "000000000";
    assert Rearranged(s) == zeros + ['B', '1'] + "GB28";
    assert Rearranged("GB280000000001B") == zeros + ['1', 'B'] + "GB28";
    IbanDetectsTransposition(s, "GB280000000001B", zeros, 'B', '1', "GB28");
  }

  // ---------------------------------------------------------------- Luhn

  function Doubled(n: int): (r: int) { if 2 * n > 9 then 2 * n - 9 else 2 * n }

  function Term(c: char, alt: bool): (r: int) {
    var n := c as int - 48;
    if alt then Doubled(n) else n
  }

  /** The sum from the right; `alt` says whether the last character is doubled. */
  function LuhnSum(s: string, alt: bool): (r: int) {
    if s == [] then 0 else LuhnSum(s[..|s| - 1], !alt) + Term(s[|s| - 1], alt)
  }

  predicate ValidLuhn(s: string) { AllDigits(s) && LuhnSum(s, false) % 10 == 0 }

  method LuhnCheck(digits: string) returns (ok: bool)
    ensures ok <==> ValidLuhn(digits)
  {
    var sum: Option<int>, alt := Some(0), false;
    var i := |digits|;
    assert digits[..i] == digits;
    while i > 0
      invariant 0 <= i <= |digits|
      invariant sum.Some? <==> AllDigits(digits[i..])
      invariant sum.Some? ==> LuhnSum(digits, false) == LuhnSum(digits[..i], alt) + sum.value
    {
      i := i - 1;
      assert digits[i..] == [digits[i]] + digits[i + 1..];
      assert digits[..i + 1][..i] == digits[..i];
      var d := ParseDigit(digits[i]);
      if sum.Some? && d.Some? {
        var n := d.value;
        if alt {
          n := n * 2;
          if n > 9 {
            n := n - 9;
          }
        }
        sum := Some(sum.value + n);
      } else {
        sum := None;
      }
      alt := !alt;
    }
    assert digits[0..] == digits;
    return sum.Some? && sum.value % 10 == 0;
  }

  lemma {:induction false} LuhnOfConcat(a: string, b: string, alt: bool)
    ensures LuhnSum(a + b, alt) == LuhnSum(a, if |b| % 2 == 0 then alt else !alt) + LuhnSum(b, alt)
  {
    if b == [] {
      assert a + b == a;
    } else {
      assert (a + b)[..|a + b| - 1] == a + b[..|b| - 1];
      LuhnOfConcat(a, b[..|b| - 1], !alt);
    }
  }

  lemma LuhnMiddle(a: string, m: string, m': string, b: string)
    requires |m| == |m'|
    ensures var alt := |b| % 2 == 1;
            LuhnSum(a + m + b, false) - LuhnSum(a + m' + b, false) == LuhnSum(m, alt) - LuhnSum(m', alt)
  {
    LuhnOfConcat(a + m, b, false);
    LuhnOfConcat(a + m', b, false);
    LuhnOfConcat(a, m, |b| % 2 == 1);
    LuhnOfConcat(a, m', |b| % 2 == 1);
  }

  lemma LuhnSmall(c: char, d: char, alt: bool)
    ensures LuhnSum([c], alt) == Term(c, alt)
    ensures LuhnSum([c, d], alt) == Term(c, !alt) + Term(d, alt)
  {
    assert [c][..0] == [];
    assert [c, d][..1] == [c];
    assert LuhnSum([c], !alt) == Term(c, !alt);
  }

  /** Which digits are doubled: replacing c by d moves the sum by their difference where an even
      number of digits follows, so the check digit itself counts once, and by the difference of
      their doubles, less nine above nine, where an odd number does. */
  lemma LuhnWeights(a: string, c: char, d: char, b: string)
    requires IsDigit(c) && IsDigit(d)
    ensures var m, n := c as int - '0' as int, d as int - '0' as int;
            LuhnSum(a + [d] + b, false) - LuhnSum(a + [c] + b, false) ==
            if |b| % 2 == 0 then n - m
            else (2 * n - if n >= 5 then 9 else 0) - (2 * m - if m >= 5 then 9 else 0)
  {
    LuhnMiddle(a, [d], [c], b);
    LuhnSmall(d, c, |b| % 2 == 1);
    LuhnSmall(c, d, |b| % 2 == 1);
  }

  /** Every number has exactly one check digit. */
  lemma LuhnCheckDigit(p: string, c: char)
    requires AllDigits(p) && IsDigit(c)
    ensures ValidLuhn(p + [c]) <==> c as int - '0' as int == (10 - LuhnSum(p + ['0'], false) % 10) % 10
  {
    LuhnWeights(p, '0', c, []);
    assert p + [c] + [] == p + [c] && p + ['0'] + [] == p + ['0'];
    var s := p + [c];
    assert s[|p|] == c && forall i :: 0 <= i < |p| ==> s[i] == p[i];
  }

  lemma LuhnOnes(n: nat)
    ensures LuhnSum(seq(n, _ => '1'), false) == n + n / 2 && LuhnSum(seq(n, _ => '1'), true) == n + (n + 1) / 2
  {
    if n > 0 {
      assert seq(n, _ => '1')[..n - 1] == seq(n - 1, _ => '1');
      LuhnOnes(n - 1);
    }
  }

  /** A familiar card number is recognised. */
  lemma LuhnAcceptsCard()
    ensures ValidLuhn("4111111111111111")
  {
    var ones := seq(15, _ => '1');
    LuhnOnes(15);
    LuhnOfConcat("4", ones, false);
    LuhnSmall('4', '4', true);
    assert "4111111111111111" == "4" + ones;
  }

  lemma TermDecides(c: char, d: char, alt: bool)
    requires IsDigit(c) && IsDigit(d)
    ensures (Term(c, alt) - Term(d, alt)) % 10 == 0 <==> c == d
  {}

  /** Every change of a single digit is detected. */
  lemma LuhnDetectsSubstitution(s: string, i: nat, c: char)
    requires ValidLuhn(s) && i < |s| && IsDigit(c)
    ensures ValidLuhn(s[i := c]) <==> c == s[i]
  {
    var a, b := s[..i], s[i + 1..];
    assert s == a + [s[i]] + b && s[i := c] == a + [c] + b;
    LuhnMiddle(a, [s[i]], [c], b);
    LuhnSmall(s[i], c, |b| % 2 == 1);
    LuhnSmall(c, s[i], |b| % 2 == 1);
    TermDecides(s[i], c, |b| % 2 == 1);
    TenDecides(LuhnSum(s, false), LuhnSum(s[i := c], false));
  }

  lemma TenDecides(x: int, y: int)
    requires x % 10 == 0
    ensures y % 10 == 0 <==> (x - y) % 10 == 0
  {}

  lemma PairTermDecides(c: char, d: char, alt: bool)
    requires IsDigit(c) && IsDigit(d)
    ensures (Term(c, !alt) + Term(d, alt) - Term(d, !alt) - Term(c, alt)) % 10 == 0 <==>
            c == d || (c == '0' && d == '9') || (c == '9' && d == '0')
  {}

  lemma SwapKeepsDigits(a: string, c: char, d: char, b: string)
    requires AllDigits(a + [c, d] + b)
    ensures IsDigit(c) && IsDigit(d) && AllDigits(a + [d, c] + b)
  {
    var s, s' := a + [c, d] + b, a + [d, c] + b;
    assert s[|a|] == c && s[|a| + 1] == d;
    assert forall i :: 0 <= i < |s| ==> s'[i] == s[if i == |a| then i + 1 else if i == |a| + 1 then i - 1 else i];
  }

  /** Exchanging two neighbours is detected unless they are equal or are 0 and 9. */
  lemma LuhnDetectsTransposition(a: string, c: char, d: char, b: string)
    requires ValidLuhn(a + [c, d] + b)
    ensures ValidLuhn(a + [d, c] + b) <==> c == d || (c == '0' && d == '9') || (c == '9' && d == '0')
  {
    var alt := |b| % 2 == 1;
    SwapKeepsDigits(a, c, d, b);
    LuhnMiddle(a, [c, d], [d, c], b);
    LuhnSmall(c, d, alt);
    LuhnSmall(d, c, alt);
    PairTermDecides(c, d, alt);
    TenDecides(LuhnSum(a + [c, d] + b, false), LuhnSum(a + [d, c] + b, false));
  }
}
