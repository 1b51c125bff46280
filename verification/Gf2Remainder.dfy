/**
  An independent reference for the checksum: the remainder of polynomial division over GF(2), modulo the generator
  x^16 + x^12 + x^5 + 1 of section 2 of ITU-T V.41. Polynomials are coefficient strings, highest power first.
 */
module Gf2Remainder {
  import opened Crc16

  /** Coefficient k of q, zero outside its range. */
  predicate Coefficient(q: seq<bool>, k: int) {
    0 <= k < |q| && q[k]
  }

  /** Coefficient k of the product of q with the generator, written with |q| + 16 coefficients. */
  predicate TimesGenerator(q: seq<bool>, k: int) {
    ((Coefficient(q, k) != Coefficient(q, k - 4)) != Coefficient(q, k - 11)) != Coefficient(q, k - 16)
  }

  /** Coefficient k of the dividend: the message times x^16, its first 16 coefficients flipped by the preset. */
  predicate Dividend(message: seq<bool>, k: int) {
    Coefficient(message, k) != (k < 16)
  }

  /** dividend == q * generator + r, with r of degree below 16. */
  ghost predicate Divides(message: seq<bool>, q: seq<bool>, r: seq<bool>) {
    && |q| == |message|
    && |r| == 16
    && forall k :: 0 <= k < |message| + 16 ==>
         Dividend(message, k) == (TimesGenerator(q, k) != Coefficient(r, k - |message|))
  }

  ghost predicate IsRemainder(message: seq<bool>, r: seq<bool>) {
    exists q :: Divides(message, q, r)
  }

  lemma CoefficientPush(q: seq<bool>, b: bool, k: int)
    ensures Coefficient(q + [b], k) == if k == |q| then b else Coefficient(q, k)
  {}

  lemma CoefficientStep(r: seq<bool>, b: bool, k: int)
    requires |r| == 16 && 0 <= k < 16
    ensures Coefficient(Step(r, b), k) == (Coefficient(r, k + 1) != ((r[0] != b) && Tap(k)))
  {}

  lemma DivideStepAt(m: seq<bool>, b: bool, q: seq<bool>, r: seq<bool>, k: nat)
    requires Divides(m, q, r) && k < |m| + 17
    ensures Dividend(m + [b], k)
      == (TimesGenerator(q + [r[0] != b], k) != Coefficient(Step(r, b), k - |m| - 1))
  {
    var n, t := |m|, r[0] != b;
    if k < n + 16 {
      assert Dividend(m, k) == (TimesGenerator(q, k) != Coefficient(r, k - n));
    }
    CoefficientPush(m, b, k);
    CoefficientPush(q, t, k);
    CoefficientPush(q, t, k - 4);
    CoefficientPush(q, t, k - 11);
    CoefficientPush(q, t, k - 16);
    if k > n {
      CoefficientStep(r, b, k - n - 1);
    }
    hide Step, Divides;
  }

  /** One more message bit: the quotient gains the bit that the register shifts out. */
  lemma DivideStep(m: seq<bool>, b: bool, q: seq<bool>, r: seq<bool>)
    requires Divides(m, q, r)
    ensures Divides(m + [b], q + [r[0] != b], Step(r, b))
  {
    forall k: nat | k < |m| + 17
      ensures Dividend(m + [b], k)
        == (TimesGenerator(q + [r[0] != b], k) != Coefficient(Step(r, b), k - |m| - 1))
    {
      DivideStepAt(m, b, q, r, k);
    }
  }

  lemma {:induction false} DivideAll(m: seq<bool>) returns (q: seq<bool>)
    ensures Divides(m, q, Feed(Preset(), m))
    decreases |m|
  {
    if m == [] {
      q := [];
    } else {
      var last := |m| - 1;
      var shorter := DivideAll(m[..last]);
      DivideStep(m[..last], m[last], shorter, Feed(Preset(), m[..last]));
      assert m == m[..last] + [m[last]];
      FeedAppend(Preset(), m[..last], [m[last]]);
      q := shorter + [Feed(Preset(), m[..last])[0] != m[last]];
    }
  }

  /** The leading coefficients of the dividend fix the quotient one by one. */
  lemma {:induction false} SameQuotient(m: seq<bool>, q: seq<bool>, r: seq<bool>, p: seq<bool>, s: seq<bool>, k: nat)
    requires Divides(m, q, r) && Divides(m, p, s) && k <= |m|
    ensures forall j :: 0 <= j < k ==> q[j] == p[j]
    decreases k
  {
    if k > 0 {
      SameQuotient(m, q, r, p, s, k - 1);
      assert Dividend(m, k - 1) == TimesGenerator(q, k - 1);
      assert Dividend(m, k - 1) == TimesGenerator(p, k - 1);
      assert Coefficient(q, k - 5) == Coefficient(p, k - 5);
      assert Coefficient(q, k - 12) == Coefficient(p, k - 12);
      assert Coefficient(q, k - 17) == Coefficient(p, k - 17);
    }
  }

  lemma RemainderUnique(m: seq<bool>, r: seq<bool>, s: seq<bool>)
    requires IsRemainder(m, r) && IsRemainder(m, s)
    ensures r == s
  {
    var q :| Divides(m, q, r);
    var p :| Divides(m, p, s);
    SameQuotient(m, q, r, p, s, |m|);
    assert q == p;
    forall j | 0 <= j < 16 ensures r[j] == s[j] {
      var k := |m| + j;
      assert Dividend(m, k) == (TimesGenerator(q, k) != Coefficient(r, j));
      assert Dividend(m, k) == (TimesGenerator(p, k) != Coefficient(s, j));
    }
  }

  /** The checksum of a message is its remainder, and nothing else is. */
  lemma ChecksumIsRemainder(data: seq<byte>, r: seq<bool>)
    ensures r == Register(data) <==> IsRemainder(Bits(data), r)
  {
    var q := DivideAll(Bits(data));
    assert IsRemainder(Bits(data), Register(data));
    if IsRemainder(Bits(data), r) {
      RemainderUnique(Bits(data), r, Register(data));
    }
  }
}
