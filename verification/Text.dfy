/** Decimal numerals, and the order of text. */
module Text {

  function Digit(n: nat): char
    requires n < 10
  {
    '0' + n as char
  }

  function Digits(n: nat): (s: string)
    ensures s != []
  {
    if n < 10 then [Digit(n)] else Digits(n / 10) + [Digit(n % 10)]
  }

  function Decimal(n: int): string {
    if n < 0 then "-" + Digits(-n) else Digits(n)
  }

  function Zeros(n: nat): (s: string)
    ensures |s| == n
  {
    seq(n, _ => '0')
  }

  /** A numeral padded with leading zeros to at least `width` characters. */
  function Padded(n: nat, width: nat): string {
    var digits := Digits(n);
    if |digits| < width then Zeros(width - |digits|) + digits else digits
  }

  function Pow10(width: nat): (r: nat)
    ensures r > 0
  {
    if width == 0 then 1 else 10 * Pow10(width - 1)
  }

  /** The last `width` digits, leading zeros and all. */
  function Fixed(n: nat, width: nat): (s: string)
    ensures |s| == width
  {
    if width == 0 then [] else Fixed(n / 10, width - 1) + [Digit(n % 10)]
  }

  lemma {:induction false} FixedZero(width: nat)
    ensures Fixed(0, width) == Zeros(width)
  {
    if width > 0 {
      FixedZero(width - 1);
    }
  }

  /** A numeral that fits its width is padded to exactly that width; a longer one is not cut. */
  lemma {:induction false} PaddedFits(n: nat, width: nat)
    requires width > 0
    ensures n < Pow10(width) ==> Padded(n, width) == Fixed(n, width)
    ensures |Padded(n, width)| == width <==> n < Pow10(width)
    ensures width <= |Padded(n, width)|
    decreases width
  {
    if n < 10 {
      FixedZero(width - 1);
      assert Pow10(width) == 10 * Pow10(width - 1);
      assert Padded(n, width) == Zeros(width - 1) + [Digit(n)];
    } else if width > 1 {
      PaddedFits(n / 10, width - 1);
      assert Padded(n, width) == Padded(n / 10, width - 1) + [Digit(n % 10)];
    }
  }

  /** Lexicographic order. */
  predicate Precedes(a: string, b: string) {
    b != [] && (a == [] || a[0] < b[0] || (a[0] == b[0] && Precedes(a[1..], b[1..])))
  }

  lemma {:induction false} PrecedesByPrefix(a: string, b: string, x: string, y: string)
    requires |a| == |b|
    ensures Precedes(a + x, b + y) <==> Precedes(a, b) || (a == b && Precedes(x, y))
  {
    if a == [] {
      assert a + x == x && b + y == y;
    } else {
      assert (a + x)[1..] == a[1..] + x && (b + y)[1..] == b[1..] + y;
      PrecedesByPrefix(a[1..], b[1..], x, y);
      assert a == [a[0]] + a[1..] && b == [b[0]] + b[1..];
    }
  }

  /** Fixed-width numerals sort as their numbers do. */
  lemma {:induction false} FixedKeepsOrder(m: nat, n: nat, width: nat)
    requires m < Pow10(width) && n < Pow10(width)
    ensures Precedes(Fixed(m, width), Fixed(n, width)) <==> m < n
    ensures Fixed(m, width) == Fixed(n, width) <==> m == n
  {
    if width > 0 {
      FixedKeepsOrder(m / 10, n / 10, width - 1);
      PrecedesByPrefix(Fixed(m / 10, width - 1), Fixed(n / 10, width - 1), [Digit(m % 10)], [Digit(n % 10)]);
      assert Fixed(m, width)[..width - 1] == Fixed(m / 10, width - 1) && Fixed(m, width)[width - 1] == Digit(m % 10);
      assert Fixed(n, width)[..width - 1] == Fixed(n / 10, width - 1) && Fixed(n, width)[width - 1] == Digit(n % 10);
      assert Precedes([Digit(m % 10)], [Digit(n % 10)]) <==> m % 10 < n % 10;
      assert [Digit(m % 10)] == [Digit(n % 10)] <==> m % 10 == n % 10;
    }
  }

  /** The number a string of digits spells. */
  function Value(s: string): int {
    if s == [] then 0 else 10 * Value(s[..|s| - 1]) + (s[|s| - 1] as int - '0' as int)
  }

  lemma {:induction false} FixedReadsBack(n: nat, width: nat)
    requires n < Pow10(width)
    ensures Value(Fixed(n, width)) == n
  {
    if width > 0 {
      FixedReadsBack(n / 10, width - 1);
      assert Fixed(n, width)[..width - 1] == Fixed(n / 10, width - 1);
    }
  }
}
