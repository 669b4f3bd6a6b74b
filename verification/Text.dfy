/** Texts as sequences of UTF-16 code units, their order, and the decimal spelling of integers. */
module Text {
  import opened Sorting

  type CodeUnit = c: int | 0 <= c < 0x10000

  type Text = seq<CodeUnit>

  const COMMA: CodeUnit := 0x2C
  const MINUS: CodeUnit := 0x2D
  const ZERO: CodeUnit := 0x30
  const NINE: CodeUnit := 0x39
  const COLON: CodeUnit := 0x3A

  // ----- order -----

  /** The order in which arrays of strings are sorted: code unit by code unit. */
  predicate TextLeq(a: Text, b: Text) {
    if a == [] then true
    else if b == [] then false
    else a[0] < b[0] || (a[0] == b[0] && TextLeq(a[1..], b[1..]))
  }

  lemma {:induction false} TextLeqTotal(a: Text, b: Text)
    ensures TextLeq(a, b) || TextLeq(b, a)
  {
    if a != [] && b != [] && a[0] == b[0] {
      TextLeqTotal(a[1..], b[1..]);
    }
  }

  lemma {:induction false} TextLeqTransitive(a: Text, b: Text, c: Text)
    requires TextLeq(a, b) && TextLeq(b, c)
    ensures TextLeq(a, c)
  {
    if a != [] && b != [] && c != [] && a[0] == b[0] == c[0] {
      TextLeqTransitive(a[1..], b[1..], c[1..]);
    }
  }

  lemma {:induction false} TextLeqAntisymmetric(a: Text, b: Text)
    requires TextLeq(a, b) && TextLeq(b, a)
    ensures a == b
  {
    if a != [] {
      TextLeqAntisymmetric(a[1..], b[1..]);
      assert a == [a[0]] + a[1..] && b == [b[0]] + b[1..];
    }
  }

  lemma TextLeqIsTotalOrder()
    ensures TotalPreorder(TextLeq) && Antisymmetric(TextLeq)
  {
    forall a: Text, b: Text
      ensures TextLeq(a, b) || TextLeq(b, a)
    {
      TextLeqTotal(a, b);
    }
    forall a: Text, b: Text, c: Text | TextLeq(a, b) && TextLeq(b, c)
      ensures TextLeq(a, c)
    {
      TextLeqTransitive(a, b, c);
    }
    forall a: Text, b: Text | TextLeq(a, b) && TextLeq(b, a)
      ensures a == b
    {
      TextLeqAntisymmetric(a, b);
    }
  }

  // ----- decimal spelling -----

  predicate IsDigit(c: CodeUnit) {
    ZERO <= c <= NINE
  }

  /** The pattern `^\d+$`. */
  predicate IsNumeral(t: Text) {
    t != [] && forall i | 0 <= i < |t| :: IsDigit(t[i])
  }

  function Decimal(n: nat): (t: Text)
    ensures IsNumeral(t)
  {
    if n < 10 then [ZERO + n] else Decimal(n / 10) + [ZERO + n % 10]
  }

  /** The number a numeral denotes. */
  function Value(t: Text): nat
    requires forall i | 0 <= i < |t| :: IsDigit(t[i])
  {
    if t == [] then 0
    else
      assert IsDigit(t[|t| - 1]);
      Value(t[..|t| - 1]) * 10 + (t[|t| - 1] - ZERO)
  }

  lemma {:induction false} ValueOfDecimal(n: nat)
    ensures Value(Decimal(n)) == n
  {
    if n < 10 {
      assert [ZERO + n][..0] == [];
    } else {
      ValueOfDecimal(n / 10);
      assert Decimal(n)[..|Decimal(n)| - 1] == Decimal(n / 10);
    }
  }

  lemma DecimalInjective(m: nat, n: nat)
    requires Decimal(m) == Decimal(n)
    ensures m == n
  {
    ValueOfDecimal(m);
    ValueOfDecimal(n);
  }

  /** No superfluous leading zero. */
  predicate IsCanonical(t: Text)
    requires IsNumeral(t)
  {
    |t| == 1 || t[0] != ZERO
  }

  lemma {:induction false} DecimalIsCanonical(n: nat)
    ensures IsCanonical(Decimal(n))
    ensures n > 0 ==> Decimal(n)[0] != ZERO
  {
    if n >= 10 {
      DecimalIsCanonical(n / 10);
    }
  }

  lemma DecimalOfDigits(q: nat, d: nat)
    requires d < 10
    ensures Decimal(q * 10 + d) == if q == 0 then [ZERO + d] else Decimal(q) + [ZERO + d]
  {
    assert (q * 10 + d) / 10 == q && (q * 10 + d) % 10 == d;
  }

  /** A numeral is the decimal spelling of its value, preceded by zeros if it is not canonical. */
  lemma {:induction false} DecimalOfValue(t: Text)
    requires IsNumeral(t)
    ensures |Decimal(Value(t))| <= |t|
    ensures |Decimal(Value(t))| == |t| <==> IsCanonical(t)
    ensures IsCanonical(t) ==> Decimal(Value(t)) == t
  {
    var front, digit := t[..|t| - 1], t[|t| - 1];
    assert IsDigit(digit) && t == front + [digit];
    DecimalOfDigits(Value(front), digit - ZERO);
    if |t| > 1 {
      assert IsNumeral(front) && front[0] == t[0];
      DecimalOfValue(front);
      if Value(front) == 0 {
        assert Decimal(0) == [ZERO];
      } else if |front| == 1 {
        assert front[..0] == [];
        assert Value(front) == front[0] - ZERO;
      }
    }
  }

  function DecimalInt(n: int): Text {
    if n < 0 then [MINUS] + Decimal(-n) else Decimal(n)
  }

  // ----- reading a text from the left -----

  /** A prefix free of stop marks ends where the first stop mark is. */
  lemma {:induction false} PrefixEndsAtStop(stop: CodeUnit -> bool, a: Text, x: Text, b: Text, y: Text)
    requires (forall i | 0 <= i < |a| :: !stop(a[i])) && (forall i | 0 <= i < |b| :: !stop(b[i]))
    requires (x == [] || stop(x[0])) && (y == [] || stop(y[0])) && a + x == b + y
    ensures a == b && x == y
  {
    assert a == [] ==> a + x == x;
    assert b == [] ==> b + y == y;
    if a == [] || b == [] {
      assert a == b;
    } else {
      assert (a + x)[0] == a[0] && (b + y)[0] == b[0];
      assert (a + x)[1..] == a[1..] + x && (b + y)[1..] == b[1..] + y;
      PrefixEndsAtStop(stop, a[1..], x, b[1..], y);
      assert a == [a[0]] + a[1..] && b == [b[0]] + b[1..];
    }
  }

  predicate NotDigit(c: CodeUnit) {
    !IsDigit(c)
  }

  predicate NoDigitAhead(rest: Text) {
    rest == [] || NotDigit(rest[0])
  }

  lemma DecimalIntReadsBack(m: int, x: Text, n: int, y: Text)
    requires NoDigitAhead(x) && NoDigitAhead(y)
    requires DecimalInt(m) + x == DecimalInt(n) + y
    ensures m == n && x == y
  {
    var a, b := DecimalInt(m), DecimalInt(n);
    assert (a + x)[0] == a[0] && (b + y)[0] == b[0];
    if m < 0 {
      assert n >= 0 ==> IsDigit(b[0]);
      assert (a + x)[1..] == Decimal(-m) + x;
      assert (b + y)[1..] == Decimal(-n) + y;
      PrefixEndsAtStop(NotDigit, Decimal(-m), x, Decimal(-n), y);
      DecimalInjective(-m, -n);
    } else {
      assert n >= 0 by {
        assert IsDigit(a[0]);
      }
      PrefixEndsAtStop(NotDigit, a, x, b, y);
      DecimalInjective(m, n);
    }
  }
}
