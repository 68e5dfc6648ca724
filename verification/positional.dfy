/** Numbers written with a fixed number of digits in a base. */
module Positional {
  /** `n` in `base` as exactly `width` digits, the most significant first. */
  function Digits(n: nat, base: nat, width: nat): (r: seq<nat>)
    requires base > 1
    ensures |r| == width && forall k :: 0 <= k < width ==> r[k] < base
    decreases width
  {
    if width == 0 then [] else Digits(n / base, base, width - 1) + [n % base]
  }

  /** The number whose digits in `base` are `digits`. */
  function Value(digits: seq<nat>, base: nat): nat {
    if digits == [] then 0 else Value(digits[..|digits| - 1], base) * base + digits[|digits| - 1]
  }

  function Power(base: nat, n: nat): nat {
    if n == 0 then 1 else Power(base, n - 1) * base
  }

  lemma QuotientBelow(n: nat, base: nat, p: nat)
    requires base > 1 && n < p * base
    ensures n / base < p && n / base * base + n % base == n
  {
  }

  lemma ValueAppend(digits: seq<nat>, last: nat, base: nat)
    ensures Value(digits + [last], base) == Value(digits, base) * base + last
  {
    assert (digits + [last])[..|digits|] == digits;
  }

  /** Reading the digits back gives the number, as long as it fits in them. */
  lemma {:induction false} ValueOfDigits(n: nat, base: nat, width: nat)
    requires base > 1 && n < Power(base, width)
    ensures Value(Digits(n, base, width), base) == n
    decreases width
  {
    if width > 0 {
      var front, last := n / base, n % base;
      assert Digits(n, base, width) == Digits(front, base, width - 1) + [last];
      QuotientBelow(n, base, Power(base, width - 1));
      hide Value, Digits, Power;
      ValueOfDigits(front, base, width - 1);
      ValueAppend(Digits(front, base, width - 1), last, base);
    }
  }

  /** Multiples of `d` are not less than `d` apart. */
  lemma Apart(d: nat, k: int)
    requires d > 0
    ensures k >= 1 ==> d * k >= d
    ensures k <= -1 ==> d * k + d <= 0
  {
  }

  lemma Quotient(n: nat, d: nat, q: nat, r: nat)
    requires n == d * q + r && r < d
    ensures n / d == q
  {
    var k: int := n / d - q;
    assert d * k == r - n % d;
    Apart(d, k);
  }

  lemma Regroup(a: nat, b: nat, q: nat, r: nat, s: nat)
    requires r < b && s < a
    ensures a * (b * q + r) + s == a * b * q + (a * r + s) && a * r + s < a * b
  {
    assert a * r <= a * (b - 1) == a * b - a;
  }

  lemma QuotientTwice(n: nat, a: nat, b: nat)
    requires a > 0 && b > 0
    ensures a * b > 0 && n / a / b == n / (a * b)
  {
    var m := n / a;
    TwoSteps(n, a, b, m, m / b, m % b, n % a);
  }

  lemma TwoSteps(n: nat, a: nat, b: nat, m: nat, q: nat, r: nat, s: nat)
    requires n == a * m + s && m == b * q + r && r < b && s < a
    ensures a * b > 0 && n / (a * b) == q
  {
    Regroup(a, b, q, r, s);
    Quotient(n, a * b, q, a * r + s);
  }

  lemma PowerPositive(base: nat, n: nat)
    requires base > 0
    ensures Power(base, n) > 0
  {
  }

  /** Digit `k` counts the power of the base that has `width - 1 - k` digits behind it. */
  lemma {:induction false} DigitAt(n: nat, base: nat, width: nat, k: nat)
    requires base > 1 && k < width
    ensures Power(base, width - 1 - k) > 0
    ensures Digits(n, base, width)[k] == n / Power(base, width - 1 - k) % base
    decreases width
  {
    PowerPositive(base, width - 1 - k);
    if k == width - 1 {
      assert Power(base, 0) == 1;
    } else {
      var p := Power(base, width - 2 - k);
      assert Power(base, width - 1 - k) == p * base == base * p;
      assert Digits(n, base, width)[k] == Digits(n / base, base, width - 1)[k];
      hide Power, Digits;
      DigitAt(n / base, base, width - 1, k);
      QuotientTwice(n, base, p);
    }
  }

  lemma PowerUp(base: nat, m: nat, n: nat)
    ensures Power(base, m + n) == Power(base, m) * Power(base, n)
    decreases n
  {
    if n > 0 {
      PowerUp(base, m, n - 1);
      assert Power(base, m + n) == Power(base, m + (n - 1)) * base;
    }
  }

  /** The two widths used: eight bytes and eight hexadecimal digits. */
  lemma PowersUsed(width: nat)
    requires width == 8
    ensures Power(256, width) == 0x1_0000_0000_0000_0000
    ensures Power(16, width) == 0x1_0000_0000
  {
    PowerUp(256, 4, 4);
    PowerUp(16, 4, 4);
    assert Power(256, 2) == 0x1_0000 && Power(256, 4) == 0x1_0000_0000;
    assert Power(16, 2) == 0x100 && Power(16, 4) == 0x1_0000;
  }
}
