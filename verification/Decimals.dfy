/** Numbers as the SQL function `concat` and PHP string interpolation print them, and the
    order the server sorts such texts in. */
module Decimals {

  function Digit(n: nat): char
    requires n < 10
  {
    '0' + n as char
  }

  function Decimal(n: nat): (s: string)
    ensures s != []
    ensures forall c :: c in s ==> '0' <= c <= '9'
  {
    if n < 10 then [Digit(n)] else Decimal(n / 10) + [Digit(n % 10)]
  }

  /** The decimal text of n is at least two characters long exactly from ten on. */
  lemma OneDigit(n: nat)
    ensures |Decimal(n)| == 1 <==> n <= 9
  {
  }

  lemma {:induction false} DecimalInjective(a: nat, b: nat)
    requires Decimal(a) == Decimal(b)
    ensures a == b
  {
    var x, y := Decimal(a), Decimal(b);
    assert x[|x|-1] == Digit(a % 10) && y[|y|-1] == Digit(b % 10);
    if a >= 10 && b >= 10 {
      assert x[..|x|-1] == Decimal(a / 10) && y[..|y|-1] == Decimal(b / 10);
      DecimalInjective(a / 10, b / 10);
    }
  }

  /** Dictionary order on texts, strictly before. */
  predicate Before(a: string, b: string) {
    b != [] && (a == [] || a[0] < b[0] || (a[0] == b[0] && Before(a[1..], b[1..])))
  }

  lemma {:induction false} BeforeTotal(a: string, b: string)
    ensures Before(a, b) || Before(b, a) || a == b
    ensures !(Before(a, b) && Before(b, a))
    ensures !Before(a, a)
  {
    if a != [] && b != [] {
      BeforeTotal(a[1..], b[1..]);
      BeforeTotal(a[1..], a[1..]);
      assert a[0] == b[0] && a[1..] == b[1..] ==> a == [a[0]] + a[1..] == b;
    } else if a != [] {
      BeforeTotal(a[1..], a[1..]);
    }
  }

  lemma {:induction false} BeforeTransitive(a: string, b: string, c: string)
    requires Before(a, b) && Before(b, c)
    ensures Before(a, c)
  {
    if a != [] && a[0] == b[0] == c[0] {
      BeforeTransitive(a[1..], b[1..], c[1..]);
    }
  }

  /** A common beginning does not affect the order. */
  lemma BeforePrefixed(p: char, a: string, b: string)
    ensures Before([p] + a, [p] + b) == Before(a, b)
  {
    assert ([p] + a)[1..] == a && ([p] + b)[1..] == b;
  }

  /** For texts of equal length the last character matters only when the rest agree. */
  lemma {:induction false} BeforeLast(a: string, b: string, c: char, d: char)
    requires |a| == |b|
    ensures Before(a + [c], b + [d]) <==> Before(a, b) || (a == b && c < d)
  {
    if a == [] {
      assert a + [c] == [c] && b + [d] == [d];
    } else {
      assert (a + [c])[1..] == a[1..] + [c] && (b + [d])[1..] == b[1..] + [d];
      BeforeLast(a[1..], b[1..], c, d);
      assert a[0] == b[0] && a[1..] == b[1..] ==> a == [a[0]] + a[1..] == b;
    }
  }

  /** Text order is numeric order among numbers with equally many digits. */
  lemma {:induction false} DecimalOrder(a: nat, b: nat)
    requires |Decimal(a)| == |Decimal(b)|
    ensures Before(Decimal(a), Decimal(b)) <==> a < b
  {
    if a < 10 || b < 10 {
      OneDigit(a);
      OneDigit(b);
    } else {
      DecimalOrder(a / 10, b / 10);
      BeforeLast(Decimal(a / 10), Decimal(b / 10), Digit(a % 10), Digit(b % 10));
      if Decimal(a / 10) == Decimal(b / 10) {
        DecimalInjective(a / 10, b / 10);
      }
    }
  }

  // ----- where text order and numeric order part -----

  function Pow10(k: nat): (p: nat)
    ensures p >= 1
  {
    if k == 0 then 1 else 10 * Pow10(k - 1)
  }

  /** A number of k digits lies between the powers of ten k - 1 and k. */
  lemma {:induction false} DigitCount(n: nat)
    ensures n < Pow10(|Decimal(n)|)
    ensures n >= 10 ==> Pow10(|Decimal(n)| - 1) <= n
  {
    if n < 10 {
      assert Pow10(1) == 10 * Pow10(0);
    } else {
      DigitCount(n / 10);
      OneDigit(n / 10);
      assert Pow10(0) == 1;
    }
  }

  lemma {:induction false} MoreDigits(a: nat, b: nat)
    requires a <= b
    ensures |Decimal(a)| <= |Decimal(b)|
  {
    if a < 10 {
    } else {
      MoreDigits(a / 10, b / 10);
    }
  }

  lemma {:induction false} NoLeadingZero(n: nat)
    requires n >= 1
    ensures '1' <= Decimal(n)[0]
  {
    if n < 10 {
    } else {
      NoLeadingZero(n / 10);
    }
  }

  lemma {:induction false} PowerText(k: nat)
    ensures |Decimal(Pow10(k))| == k + 1 && Decimal(Pow10(k))[0] == '1'
  {
    if k == 0 {
    } else {
      PowerText(k - 1);
    }
  }

  /** A longer text stays behind, and stays before a text it already was before. */
  lemma {:induction false} BeforeLonger(a: string, b: string, c: char)
    ensures Before(a, b) ==> Before(a, b + [c])
    ensures Before(a, b) && |a| == |b| ==> Before(a + [c], b)
    ensures Before(a, a + [c])
  {
    if a == [] {
    } else {
      assert (a + [c])[1..] == a[1..] + [c];
      BeforeLonger(a[1..], if b == [] then [] else b[1..], c);
      assert b != [] ==> (b + [c])[1..] == b[1..] + [c];
    }
  }

  lemma {:induction false} AtLeastDigits(n: nat, k: nat)
    requires Pow10(k) <= n
    ensures |Decimal(n)| > k
  {
    if k == 0 {
    } else {
      AtLeastDigits(n / 10, k - 1);
    }
  }

  lemma {:induction false} AtMostDigits(n: nat, k: nat)
    requires n < Pow10(k) && k >= 1
    ensures |Decimal(n)| <= k
  {
    if n < 10 {
    } else {
      assert Pow10(1) == 10 * Pow10(0);
      AtMostDigits(n / 10, k - 1);
    }
  }

  /** No shorter number follows one that is all nines but for its last digit. */
  lemma {:induction false} NinesLast(r: nat, s: nat)
    requires |Decimal(r)| < |Decimal(s)| && s / 10 + 1 == Pow10(|Decimal(s)| - 1)
    ensures Before(Decimal(r), Decimal(s))
  {
    var q := s / 10;
    OneDigit(s);
    DigitCount(r);
    if |Decimal(r)| < |Decimal(q)| {
      NinesLast(r, q);
    } else {
      DecimalOrder(r, q);
    }
    BeforeLonger(Decimal(r), Decimal(q), Digit(s % 10));
  }

  /** The texts of r and s are in the opposite of their numeric order. */
  predicate Swapped(r: nat, s: nat) {
    r < s && Before(Decimal(s), Decimal(r))
  }

  /** The largest number up to n whose text precedes a smaller number's. */
  function LastSwapped(n: nat): (m: nat)
    requires n >= 10
    ensures 10 <= m <= n
  {
    OneDigit(n);
    assert Pow10(|Decimal(n)|) >= 100 by {
      assert Pow10(|Decimal(n)|) == 10 * Pow10(|Decimal(n)| - 1);
      assert Pow10(|Decimal(n)| - 1) == 10 * Pow10(|Decimal(n)| - 2);
    }
    if n <= Pow10(|Decimal(n)|) - 11 then n else Pow10(|Decimal(n)|) - 11
  }

  /** Numbers up to n whose texts are swapped lie between two and the last swapped one. */
  lemma SwappedSpan(r: nat, s: nat, n: nat)
    requires 1 <= r && s <= n && Swapped(r, s)
    ensures n >= 10 && 2 <= r && s <= LastSwapped(n)
  {
    BeforeTotal(Decimal(r), Decimal(s));
    MoreDigits(r, s);
    MoreDigits(s, n);
    if |Decimal(r)| == |Decimal(s)| {
      DecimalOrder(s, r);
    }
    OneDigit(n);
    NoLeadingZero(s);
    assert Decimal(1) == ['1'];
    var l := |Decimal(n)|;
    if s > Pow10(l) - 11 {
      assert Pow10(l) == 10 * Pow10(l - 1);
      assert l >= 2 ==> Pow10(l - 1) == 10 * Pow10(l - 2);
      AllButLastNine(s, l);
      NinesLast(r, s);
    }
  }

  /** Within ten of a power of ten all digits but the last are nines. */
  lemma AllButLastNine(s: nat, l: nat)
    requires l >= 2 && Pow10(l) - 10 <= s && |Decimal(s)| <= l
    ensures |Decimal(s)| == l && s / 10 + 1 == Pow10(l - 1)
  {
    assert Pow10(l) == 10 * Pow10(l - 1) && Pow10(l - 1) == 10 * Pow10(l - 2);
    AtLeastDigits(s, l - 1);
    DigitCount(s);
  }

  /** Two swapped pairs that together reach from two to the last swapped number. */
  lemma SwappedReach(n: nat) returns (p: nat, q: nat)
    requires n >= 10
    ensures 2 < p <= n && Swapped(2, p)
    ensures 2 <= q <= p && Swapped(q, LastSwapped(n))
  {
    var l, m := |Decimal(n)|, LastSwapped(n);
    OneDigit(n);
    DigitCount(n);
    p, q := Pow10(l - 1), m / 10 + 1;
    assert Pow10(l) == 10 * p && p == 10 * Pow10(l - 2);
    PowerText(l - 1);
    MoreDigits(p, m);
    MoreDigits(m, n);
    assert |Decimal(m)| == l && |Decimal(m / 10)| == l - 1;
    MoreDigits(m / 10, q);
    AtMostDigits(q, l - 1);
    DecimalOrder(m / 10, q);
    BeforeLonger(Decimal(m / 10), Decimal(q), Digit(m % 10));
  }

  /** From a power of ten to its double the first digit is one. */
  lemma {:induction false} LeadingOne(n: nat, k: nat)
    requires Pow10(k) <= n < 2 * Pow10(k)
    ensures Decimal(n)[0] == '1'
  {
    if k == 0 {
    } else {
      LeadingOne(n / 10, k - 1);
    }
  }

  /** The second of two swapped numbers has more digits. */
  lemma SwappedDigits(r: nat, s: nat)
    requires Swapped(r, s)
    ensures |Decimal(r)| < |Decimal(s)|
    ensures r < Pow10(|Decimal(r)|) <= s
  {
    MoreDigits(r, s);
    BeforeTotal(Decimal(r), Decimal(s));
    if |Decimal(r)| == |Decimal(s)| {
      DecimalOrder(s, r);
    }
    DigitCount(r);
    if s < Pow10(|Decimal(r)|) {
      AtMostDigits(s, |Decimal(r)|);
    }
  }

  /** A number that begins with one is swapped with every smaller one from two to nine. */
  lemma OneBeforeDigit(a: nat, q: nat)
    requires 2 <= a <= 9 && a < q && Decimal(q)[0] == '1'
    ensures Swapped(a, q)
  {
    assert Decimal(a) == [Digit(a)];
  }
}
