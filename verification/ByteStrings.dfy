/** Byte strings, cut points and fixed-width positional numerals. */
module ByteStrings {
  type Byte = b: int | 0 <= b < 256

  type Bytes = seq<Byte>

  function Min(a: nat, b: nat): nat {
    if a < b then a else b
  }

  /** The first `n` elements, or everything when there are fewer: Python's `s[:n]`. */
  function Front<T>(s: seq<T>, n: nat): seq<T> {
    s[..Min(n, |s|)]
  }

  /** What is left after `Front(s, n)`: Python's `s[n:]`. */
  function Back<T>(s: seq<T>, n: nat): seq<T> {
    s[Min(n, |s|)..]
  }

  lemma FrontBack<T>(s: seq<T>, n: nat)
    ensures s == Front(s, n) + Back(s, n)
  {
  }

  lemma Assoc<T>(a: seq<T>, b: seq<T>, c: seq<T>)
    ensures a + (b + c) == (a + b) + c
  {
  }

  lemma SliceOfFront<T>(a: seq<T>, b: seq<T>, i: nat, j: nat)
    requires i <= j <= |a|
    ensures (a + b)[i..j] == a[i..j]
  {
  }

  lemma DropOfFront<T>(a: seq<T>, b: seq<T>, n: nat)
    requires n <= |a|
    ensures (a + b)[n..] == a[n..] + b
  {
  }

  lemma SliceOfSlice<T>(s: seq<T>, n: nat, i: nat, j: nat)
    requires i <= j <= |s| - n
    ensures s[n..][i..j] == s[n + i..n + j]
  {
  }

  lemma FrontOfConcat<T>(a: seq<T>, b: seq<T>)
    ensures Front(a + b, |a|) == a && Back(a + b, |a|) == b
  {
  }

  predicate AllDistinct<T(==)>(xs: seq<T>) {
    forall i, j :: 0 <= i < j < |xs| ==> xs[i] != xs[j]
  }

  function Concat<T>(parts: seq<seq<T>>): seq<T> {
    if parts == [] then [] else parts[0] + Concat(parts[1..])
  }

  /** The digits of a base-`base` numeral, most significant first. */
  function FromDigits(base: nat, digits: seq<nat>): nat {
    if digits == [] then 0
    else base * FromDigits(base, digits[..|digits| - 1]) + digits[|digits| - 1]
  }

  function ToDigits(base: nat, n: nat, width: nat): (r: seq<nat>)
    requires base >= 2
    ensures |r| == width
    ensures forall k :: 0 <= k < width ==> r[k] < base
    decreases width
  {
    if width == 0 then [] else ToDigits(base, n / base, width - 1) + [n % base]
  }

  function Pow(base: nat, e: nat): nat {
    if e == 0 then 1 else base * Pow(base, e - 1)
  }

  /** Division with remainder, in both directions. */
  lemma DivMod(base: nat, n: nat)
    requires base > 0
    ensures base * (n / base) + n % base == n && n % base < base
  {
  }

  lemma DivModUnique(base: nat, q: nat, d: nat, n: nat)
    requires d < base && n == base * q + d
    ensures n / base == q && n % base == d
  {
    DivMod(base, n);
    if n / base < q {
      MulMono(base, n / base + 1, q);
    } else if n / base > q {
      MulMono(base, q + 1, n / base);
    }
  }

  lemma MulMono(a: nat, x: int, y: int)
    requires x <= y
    ensures a * x <= a * y
  {
  }

  lemma DivBound(base: nat, n: nat, p: nat)
    requires base > 0 && n < base * p
    ensures n / base < p
  {
    DivMod(base, n);
    if n / base >= p {
      MulMono(base, p, n / base);
    }
  }

  lemma HornerBound(base: nat, v: nat, d: nat, p: nat)
    requires d < base && v < p
    ensures base * v + d < base * p
  {
    MulMono(base, v + 1, p);
  }

  lemma FromDigitsSnoc(base: nat, init: seq<nat>, d: nat)
    ensures FromDigits(base, init + [d]) == base * FromDigits(base, init) + d
  {
    var s := init + [d];
    assert s[..|s| - 1] == init;
  }

  lemma ToDigitsSnoc(base: nat, n: nat, width: nat)
    requires base >= 2 && width > 0
    ensures ToDigits(base, n, width) == ToDigits(base, n / base, width - 1) + [n % base]
  {
  }

  lemma FromDivided(base: nat, n: nat, init: seq<nat>)
    requires base > 0 && FromDigits(base, init) == n / base
    ensures FromDigits(base, init + [n % base]) == n
  {
    FromDigitsSnoc(base, init, n % base);
    DivMod(base, n);
  }

  lemma QuotientUnderPow(base: nat, n: nat, width: nat)
    requires base > 0 && width > 0 && n < Pow(base, width)
    ensures n / base < Pow(base, width - 1)
  {
    DivBound(base, n, Pow(base, width - 1));
  }

  lemma {:induction false} FromToDigits(base: nat, n: nat, width: nat)
    requires base >= 2 && n < Pow(base, width)
    ensures FromDigits(base, ToDigits(base, n, width)) == n
    decreases width
  {
    if width > 0 {
      hide *;
      QuotientUnderPow(base, n, width);
      FromToDigits(base, n / base, width - 1);
      ToDigitsSnoc(base, n, width);
      FromDivided(base, n, ToDigits(base, n / base, width - 1));
    }
  }

  lemma {:induction false} ToFromDigits(base: nat, digits: seq<nat>)
    requires base >= 2
    requires forall k :: 0 <= k < |digits| ==> digits[k] < base
    ensures FromDigits(base, digits) < Pow(base, |digits|)
    ensures ToDigits(base, FromDigits(base, digits), |digits|) == digits
  {
    if digits != [] {
      var init, last := digits[..|digits| - 1], digits[|digits| - 1];
      assert init + [last] == digits;
      ToFromDigits(base, init);
      FromDigitsSnoc(base, init, last);
      HornerBound(base, FromDigits(base, init), last, Pow(base, |init|));
      DivModUnique(base, FromDigits(base, init), last, FromDigits(base, digits));
    }
  }
}
