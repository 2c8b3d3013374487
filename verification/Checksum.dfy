/**
  Fletcher's 16-bit checksum (RFC 1146, appendix I) as the kernel computes it, on
  signed chars and 16-bit sums, and the exclusive or of two of them.
 */
module Checksum {
  import opened Arithmetic

  // ------------------------------------------------------------- C arithmetic

  /** C's remainder takes the sign of the dividend. */
  function Rem(a: int, m: int): int
    requires m > 0
  {
    if a >= 0 then a % m else -((-a) % m)
  }

  /** What is left of `a` after taking away a multiple of `m`, with the sign of `a`. */
  lemma RemIs(a: int, m: int)
    requires m > 0
    ensures -m < Rem(a, m) < m && (a >= 0 ==> Rem(a, m) >= 0) && (a <= 0 ==> Rem(a, m) <= 0)
    ensures exists q :: a == m * q + Rem(a, m)
  {
    if a >= 0 {
      assert a == m * (a / m) + Rem(a, m);
    } else {
      assert -a == m * (-a / m) + (-a) % m;
      assert a == m * -(-a / m) + Rem(a, m);
    }
  }

  /** Conversion to `uint16_t`. */
  function Uint16(a: int): (r: nat)
    ensures r < 0x1_0000
    ensures 0 <= a < 0x1_0000 ==> r == a
  {
    a % 0x1_0000
  }

  /** The number of 16 bits that differs from `a` by a multiple of 65536. */
  lemma Uint16Is(a: int)
    ensures exists q :: a == 0x1_0000 * q + Uint16(a)
  {
    assert a == 0x1_0000 * (a / 0x1_0000) + Uint16(a);
  }

  function BitOr(a: nat, b: nat): nat {
    if a == 0 then b else if b == 0 then a
    else 2 * BitOr(a / 2, b / 2) + (if a % 2 == 1 || b % 2 == 1 then 1 else 0)
  }

  function BitXor(a: nat, b: nat): nat {
    if a == 0 then b else if b == 0 then a
    else 2 * BitXor(a / 2, b / 2) + (if a % 2 != b % 2 then 1 else 0)
  }

  function PowerOfTwo(k: nat): (p: nat)
    ensures p > 0
  {
    if k == 0 then 1 else 2 * PowerOfTwo(k - 1)
  }

  /** Bit `k` of a number. */
  function Bit(n: nat, k: nat): nat { if k == 0 then n % 2 else Bit(n / 2, k - 1) }

  lemma {:induction false} BitsOfZero(k: nat)
    ensures Bit(0, k) == 0
  {
    if k > 0 {
      BitsOfZero(k - 1);
    }
  }

  /** Every bit is set that is set in one of the two. */
  lemma {:induction false} BitsOfOr(a: nat, b: nat, k: nat)
    ensures Bit(BitOr(a, b), k) == if Bit(a, k) == 1 || Bit(b, k) == 1 then 1 else 0
    decreases k
  {
    BitsOfZero(k);
    BitsOfTwo(a, k);
    BitsOfTwo(b, k);
    if k > 0 {
      BitsOfOr(a / 2, b / 2, k - 1);
    }
  }

  lemma {:induction false} BitsOfTwo(n: nat, k: nat)
    ensures Bit(n, k) == 0 || Bit(n, k) == 1
  {
    if k > 0 {
      BitsOfTwo(n / 2, k - 1);
    }
  }

  /** Every bit is set that is set in exactly one of the two. */
  lemma {:induction false} BitsOfXor(a: nat, b: nat, k: nat)
    ensures Bit(BitXor(a, b), k) == if Bit(a, k) != Bit(b, k) then 1 else 0
    decreases k
  {
    BitsOfZero(k);
    BitsOfTwo(a, k);
    BitsOfTwo(b, k);
    if k > 0 {
      BitsOfXor(a / 2, b / 2, k - 1);
    }
  }

  lemma HalvesOfShifted(a: nat, p: nat)
    ensures (a * (2 * p)) / 2 == a * p && (a * (2 * p)) % 2 == 0
  {
    assert a * (2 * p) == 2 * (a * p);
  }

  /** Or-ing bits into zeros adds them. */
  lemma {:induction false} OrIntoZeros(a: nat, b: nat, k: nat)
    requires b < PowerOfTwo(k)
    ensures BitOr(a * PowerOfTwo(k), b) == a * PowerOfTwo(k) + b
  {
    if k > 0 && b > 0 && a * PowerOfTwo(k) > 0 {
      HalvesOfShifted(a, PowerOfTwo(k - 1));
      OrIntoZeros(a, b / 2, k - 1);
    }
  }

  /** Exclusive or with the same number tells different numbers apart. */
  lemma {:induction false} XorCancels(a: nat, b: nat, c: nat)
    ensures BitXor(a, c) == BitXor(b, c) ==> a == b
  {
    if c > 0 && (a > 0 || b > 0) {
      XorBits(a, c);
      XorBits(b, c);
      XorCancels(a / 2, b / 2, c / 2);
    }
  }

  lemma XorBits(a: nat, c: nat)
    ensures BitXor(a, c) / 2 == BitXor(a / 2, c / 2)
    ensures BitXor(a, c) % 2 == if a % 2 != c % 2 then 1 else 0
  {
  }

  // ---------------------------------------------------------------- the kernel

  /** One byte as a signed char. */
  predicate IsChar(d: int) { -128 <= d < 128 }

  predicate AreChars(s: seq<int>) { forall i :: 0 <= i < |s| ==> IsChar(s[i]) }

  predicate IsAscii(s: seq<int>) { forall i :: 0 <= i < |s| ==> 0 <= s[i] < 128 }

  function Sums(s: seq<int>): (r: (nat, nat)) {
    if s == [] then (0, 0)
    else
      var before := Sums(s[..|s| - 1]);
      var sum1 := Uint16(Rem(before.0 + s[|s| - 1], 255));
      (sum1, Uint16(Rem(before.1 + sum1, 255)))
  }

  function Pack(sum1: nat, sum2: nat): nat { Uint16(BitOr(sum2 * 0x100, sum1)) }

  function Fletcher(s: seq<int>): nat { Pack(Sums(s).0, Sums(s).1) }

  method Fletcher16(str: seq<int>) returns (value: nat)
    requires AreChars(str)
    ensures value == Fletcher(str)
  {
    var sum1: nat, sum2: nat := 0, 0;
    for i := 0 to |str|
      invariant (sum1, sum2) == Sums(str[..i])
    {
      assert str[..i + 1][..i] == str[..i];
      sum1 := Uint16(Rem(sum1 + str[i], 255));
      sum2 := Uint16(Rem(sum2 + sum1, 255));
    }
    assert str[..|str|] == str;
    value := Pack(sum1, sum2);
  }

  method RowChecksum(name: seq<int>, email: seq<int>) returns (value: nat)
    requires AreChars(name) && AreChars(email)
    ensures value == BitXor(Fletcher(name), Fletcher(email))
  {
    var first := Fletcher16(name);
    var second := Fletcher16(email);
    value := BitXor(first, second);
  }

  // ------------------------------------------------------------------ its value

  function Total(s: seq<int>): int { if s == [] then 0 else s[0] + Total(s[1..]) }

  /** Each byte counted as often as there are bytes from it to the end. */
  function Weighted(s: seq<int>): int { if s == [] then 0 else |s| * s[0] + Weighted(s[1..]) }

  lemma {:induction false} TotalConcat(a: seq<int>, b: seq<int>)
    ensures Total(a + b) == Total(a) + Total(b)
  {
    if a == [] {
      assert a + b == b;
    } else {
      assert (a + b)[1..] == a[1..] + b;
      TotalConcat(a[1..], b);
    }
  }

  lemma CountedOnceMore(n: nat, d: int)
    ensures (n + 1) * d == n * d + d
  {
  }

  /** One more byte adds everything up to it once more. */
  lemma {:induction false} WeightedSnoc(s: seq<int>, d: int)
    ensures Weighted(s + [d]) == Weighted(s) + Total(s) + d
  {
    if s == [] {
      assert s + [d] == [d];
      assert Weighted([d]) == 1 * d + Weighted([]);
    } else {
      assert (s + [d])[1..] == s[1..] + [d];
      WeightedSnoc(s[1..], d);
      CountedOnceMore(|s|, s[0]);
    }
  }

  lemma RemainderOfSum(a: int, b: int)
    ensures (a % 255 + b) % 255 == (a + b) % 255
  {
  }

  /** The two sums of RFC 1146. */
  function WeightedSums(s: seq<int>): (int, int) { (Total(s) % 255, Weighted(s) % 255) }

  /** No byte takes the remainder of the bytes before it below zero. */
  predicate NeverNegative(s: seq<int>) { forall k :: 0 <= k < |s| ==> Total(s[..k]) % 255 + s[k] >= 0 }

  lemma NeverNegativePrefix(s: seq<int>, n: nat)
    requires NeverNegative(s) && n <= |s|
    ensures NeverNegative(s[..n])
  {
    forall k | 0 <= k < n ensures Total(s[..n][..k]) % 255 + s[..n][k] >= 0 {
      assert s[..n][..k] == s[..k];
    }
  }

  lemma SumsSnoc(s: seq<int>, d: int)
    ensures Sums(s + [d]).0 == Uint16(Rem(Sums(s).0 + d, 255))
    ensures Sums(s + [d]).1 == Uint16(Rem(Sums(s).1 + Sums(s + [d]).0, 255))
  {
    assert (s + [d])[..|s|] == s;
  }

  lemma TotalSnoc(s: seq<int>, d: int)
    ensures Total(s + [d]) == Total(s) + d
  {
    TotalConcat(s, [d]);
    assert Total([d]) == d + Total([]);
  }

  lemma RemainderOrWrap(r: nat, d: int)
    requires r < 255 && IsChar(d)
    ensures r + d >= 0 ==> Uint16(Rem(r + d, 255)) == (r + d) % 255
    ensures r + d < 0 ==> Uint16(Rem(r + d, 255)) == 0x1_0000 + (r + d)
  {
    if r + d < 0 {
      SmallRemainder(-(r + d), 255);
      RemainderUnique(r + d, 0x1_0000, -1, 0x1_0000 + (r + d));
    }
  }

  /** One more byte: the first sum is right exactly when it does not go below zero. */
  lemma NextFirstSum(s: seq<int>, d: int)
    requires IsChar(d) && Sums(s).0 == Total(s) % 255
    ensures Sums(s + [d]).0 == Total(s + [d]) % 255 <==> Total(s) % 255 + d >= 0
    ensures Total(s) % 255 + d < 0 ==> Sums(s + [d]).0 == 0x1_0000 + (Total(s) % 255 + d)
  {
    SumsSnoc(s, d);
    TotalSnoc(s, d);
    RemainderOfSum(Total(s), d);
    RemainderOrWrap(Total(s) % 255, d);
  }

  lemma NextSecondSum(s: seq<int>, d: int)
    requires Sums(s).1 == Weighted(s) % 255 && Sums(s + [d]).0 == Total(s + [d]) % 255
    ensures Sums(s + [d]).1 == Weighted(s + [d]) % 255
  {
    SumsSnoc(s, d);
    TotalSnoc(s, d);
    WeightedSnoc(s, d);
    AddRemainders(Sums(s).1, Sums(s + [d]).0, Weighted(s), Total(s + [d]));
  }

  lemma AddRemainders(r: nat, q: nat, a: int, b: int)
    requires r == a % 255 && q == b % 255
    ensures Uint16(Rem(r + q, 255)) == (a + b) % 255
  {
    RemainderOfSum(a, b % 255);
    RemainderOfSum(b, a);
  }

  lemma {:induction false} NeverNegativeSums(s: seq<int>)
    requires AreChars(s) && NeverNegative(s)
    ensures Sums(s) == WeightedSums(s)
  {
    if s != [] {
      var n := |s| - 1;
      NeverNegativePrefix(s, n);
      NeverNegativeSums(s[..n]);
      NextFirstSum(s[..n], s[n]);
      NextSecondSum(s[..n], s[n]);
      assert s == s[..n] + [s[n]];
    }
  }

  /** On any bytes: at every point of the loop the sums are those of RFC 1146 exactly when none goes below zero. */
  lemma SumsAreWeightedIff(s: seq<int>)
    requires AreChars(s)
    ensures (forall k :: 0 <= k <= |s| ==> Sums(s[..k]) == WeightedSums(s[..k])) <==> NeverNegative(s)
  {
    if NeverNegative(s) {
      forall k | 0 <= k <= |s| ensures Sums(s[..k]) == WeightedSums(s[..k]) {
        NeverNegativePrefix(s, k);
        NeverNegativeSums(s[..k]);
      }
    }
    if forall k :: 0 <= k <= |s| ==> Sums(s[..k]) == WeightedSums(s[..k]) {
      forall k | 0 <= k < |s| ensures Total(s[..k]) % 255 + s[k] >= 0 {
        assert Sums(s[..k]) == WeightedSums(s[..k]) && Sums(s[..k + 1]) == WeightedSums(s[..k + 1]);
        assert s[..k + 1] == s[..k] + [s[k]];
        NextFirstSum(s[..k], s[k]);
      }
    }
  }

  /** What the loop adds up before round `i` takes its remainders fits in 16 bits. */
  predicate FitsAt(s: seq<int>, i: nat)
    requires i < |s|
  {
    0 <= Sums(s[..i]).0 + s[i] < 0x1_0000 && 0 <= Sums(s[..i]).1 + Sums(s[..i + 1]).0 < 0x1_0000
  }

  lemma {:induction false} FittingIsNonNegative(s: seq<int>)
    requires AreChars(s) && forall i :: 0 <= i < |s| ==> FitsAt(s, i)
    ensures NeverNegative(s)
  {
    if s != [] {
      var n := |s| - 1;
      var front := s[..n];
      forall i | 0 <= i < n ensures FitsAt(front, i) {
        assert FitsAt(s, i);
        assert front[..i] == s[..i] && front[..i + 1] == s[..i + 1];
      }
      FittingIsNonNegative(front);
      NeverNegativeSums(front);
      assert FitsAt(s, n);
      forall k | 0 <= k < |s| ensures Total(s[..k]) % 255 + s[k] >= 0 {
        if k < n {
          assert front[..k] == s[..k];
          assert Total(front[..k]) % 255 + front[k] >= 0;
        }
      }
    }
  }

  /** On any bytes: no intermediate value leaves 16 bits exactly under the same condition. */
  lemma NoOverflowIff(s: seq<int>)
    requires AreChars(s)
    ensures (forall i :: 0 <= i < |s| ==> FitsAt(s, i)) <==> NeverNegative(s)
  {
    if NeverNegative(s) {
      SumsAreWeightedIff(s);
      forall i | 0 <= i < |s| ensures FitsAt(s, i) {
        assert Sums(s[..i]) == WeightedSums(s[..i]) && Sums(s[..i + 1]) == WeightedSums(s[..i + 1]);
      }
    }
    if forall i :: 0 <= i < |s| ==> FitsAt(s, i) {
      FittingIsNonNegative(s);
    }
  }

  lemma AsciiNeverNegative(s: seq<int>)
    requires IsAscii(s)
    ensures AreChars(s) && NeverNegative(s)
  {
  }

  /** On ASCII the sums are those of RFC 1146. */
  lemma SumsAreWeighted(s: seq<int>)
    requires IsAscii(s)
    ensures Sums(s) == WeightedSums(s)
  {
    AsciiNeverNegative(s);
    NeverNegativeSums(s);
  }

  /** On ASCII no intermediate value of the loop leaves 16 bits. */
  lemma NoOverflow(s: seq<int>, i: nat)
    requires IsAscii(s) && i < |s|
    ensures FitsAt(s, i)
  {
    AsciiNeverNegative(s);
    NoOverflowIff(s);
  }

  /** Both sums, side by side. */
  lemma FletcherValue(s: seq<int>)
    requires AreChars(s) && NeverNegative(s)
    ensures Fletcher(s) == 256 * (Weighted(s) % 255) + Total(s) % 255
  {
    NeverNegativeSums(s);
    var sum1, sum2 := Total(s) % 255, Weighted(s) % 255;
    EightBits();
    OrIntoZeros(sum2, sum1, 8);
  }

  lemma EightBits()
    ensures PowerOfTwo(8) == 256
  {
    assert PowerOfTwo(4) == 16;
    assert PowerOfTwo(6) == 64;
  }

  /** The checksum tells apart what its sums tell apart. */
  lemma FletcherDiffers(s: seq<int>, t: seq<int>)
    requires AreChars(s) && AreChars(t) && NeverNegative(s) && NeverNegative(t)
    ensures Fletcher(s) == Fletcher(t) <==> Total(s) % 255 == Total(t) % 255 && Weighted(s) % 255 == Weighted(t) % 255
  {
    FletcherValue(s);
    FletcherValue(t);
    SameDigits(Weighted(s) % 255, Total(s) % 255, Weighted(t) % 255, Total(t) % 255);
  }

  lemma SameDigits(a: nat, b: nat, c: nat, d: nat)
    requires b < 256 && d < 256
    ensures 256 * a + b == 256 * c + d <==> a == c && b == d
  {
  }

  /** Numbers less than 255 apart have different remainders. */
  lemma RemaindersDiffer(a: int, b: int)
    requires a != b && -255 < a - b < 255
    ensures a % 255 != b % 255
  {
  }

  lemma UpdatedTotal(s: seq<int>, i: nat, d: int)
    requires i < |s|
    ensures Total(s[i := d]) == Total(s) - s[i] + d
  {
    var rest := s[i + 1..];
    assert s == s[..i] + ([s[i]] + rest) && s[i := d] == s[..i] + ([d] + rest);
    TotalConcat(s[..i], [s[i]] + rest);
    TotalConcat(s[..i], [d] + rest);
    assert ([s[i]] + rest)[1..] == rest && ([d] + rest)[1..] == rest;
  }

  lemma {:induction false} UpdatedWeighted(s: seq<int>, i: nat, d: int)
    requires i < |s|
    ensures Weighted(s[i := d]) == Weighted(s) + (|s| - i) * (d - s[i])
  {
    if i == 0 {
      assert s[0 := d][1..] == s[1..];
      Distributes(|s|, d, s[0]);
    } else {
      assert s[i := d][1..] == s[1..][i - 1 := d];
      UpdatedWeighted(s[1..], i - 1, d);
    }
  }

  lemma Distributes(n: nat, a: int, b: int)
    ensures n * a == n * b + n * (a - b)
  {
  }

  lemma MultipleOf255(a: int, n: int)
    ensures (a + n * 255) % 255 == a % 255
  {
  }

  /** The modulus is the distance between the lowest and the highest byte. */
  predicate Apart255(a: int, b: int) { a - b == 255 || b - a == 255 }

  /** Changing one byte changes the checksum, unless it goes from one end of the range to the other. */
  lemma OneByteChangeIff(s: seq<int>, i: nat, d: int)
    requires i < |s| && AreChars(s) && AreChars(s[i := d]) && NeverNegative(s) && NeverNegative(s[i := d])
    ensures Fletcher(s[i := d]) != Fletcher(s) <==> d != s[i] && !Apart255(d, s[i])
  {
    assert s[i := d][i] == d;
    UpdatedTotal(s, i, d);
    FletcherDiffers(s[i := d], s);
    if d == s[i] {
      assert s[i := d] == s;
    } else if Apart255(d, s[i]) {
      UpdatedWeighted(s, i, d);
      var n := if d > s[i] then 1 else -1;
      MultipleOf255(Total(s), n);
      TimesSign(|s| - i, n);
      MultipleOf255(Weighted(s), (|s| - i) * n);
    } else {
      RemaindersDiffer(Total(s[i := d]), Total(s));
    }
  }

  lemma TimesSign(k: int, n: int)
    requires n == 1 || n == -1
    ensures k * (n * 255) == (k * n) * 255
  {
  }

  /** On ASCII, changing one byte always changes the checksum. */
  lemma OneByteChange(s: seq<int>, i: nat, d: int)
    requires IsAscii(s) && i < |s| && 0 <= d < 128 && d != s[i]
    ensures Fletcher(s[i := d]) != Fletcher(s)
  {
    AsciiNeverNegative(s);
    AsciiNeverNegative(s[i := d]);
    OneByteChangeIff(s, i, d);
  }

  function Swapped(s: seq<int>, i: nat): (r: seq<int>)
    requires i + 1 < |s|
    ensures |r| == |s|
  {
    s[i := s[i + 1]][i + 1 := s[i]]
  }

  lemma {:induction false} SwappedSums(s: seq<int>, i: nat)
    requires i + 1 < |s|
    ensures Total(Swapped(s, i)) == Total(s)
    ensures Weighted(Swapped(s, i)) == Weighted(s) - s[i] + s[i + 1]
  {
    var r := Swapped(s, i);
    if i == 0 {
      assert r[1..][0] == s[0] && s[1..][0] == s[1] && r[1..][1..] == s[1..][1..];
      CountedOnceMore(|s| - 1, s[0]);
      CountedOnceMore(|s| - 1, s[1]);
    } else {
      assert r[1..] == Swapped(s[1..], i - 1);
      SwappedSums(s[1..], i - 1);
    }
  }

  /** So does swapping two neighbours, with the same exception. */
  lemma NeighbourSwapIff(s: seq<int>, i: nat)
    requires i + 1 < |s| && AreChars(s) && NeverNegative(s) && NeverNegative(Swapped(s, i))
    ensures Fletcher(Swapped(s, i)) != Fletcher(s) <==> s[i] != s[i + 1] && !Apart255(s[i], s[i + 1])
  {
    SwappedSums(s, i);
    FletcherDiffers(Swapped(s, i), s);
    if s[i] != s[i + 1] {
      if Apart255(s[i], s[i + 1]) {
        MultipleOf255(Weighted(s), if s[i] < s[i + 1] then 1 else -1);
      } else {
        RemaindersDiffer(Weighted(Swapped(s, i)), Weighted(s));
      }
    }
  }

  /** On ASCII, swapping two unequal neighbours always changes the checksum. */
  lemma NeighbourSwap(s: seq<int>, i: nat)
    requires IsAscii(s) && i + 1 < |s| && s[i] != s[i + 1]
    ensures Fletcher(Swapped(s, i)) != Fletcher(s)
  {
    AsciiNeverNegative(s);
    AsciiNeverNegative(Swapped(s, i));
    NeighbourSwapIff(s, i);
  }

  /** In the row's value, too: the other string's checksum does not hide a change. */
  lemma RowNotices(name: seq<int>, changed: seq<int>, email: seq<int>)
    requires Fletcher(changed) != Fletcher(name)
    ensures BitXor(Fletcher(changed), Fletcher(email)) != BitXor(Fletcher(name), Fletcher(email))
  {
    XorCancels(Fletcher(changed), Fletcher(name), Fletcher(email));
  }

  /** A byte above 127 is negative as a char; the 16-bit sum then leaves 0..254. */
  lemma NegativeByteExample()
    ensures AreChars([-1]) && !NeverNegative([-1])
    ensures Sums([-1]).0 == 0xFFFF && Total([-1]) % 255 == 254
  {
    assert [-1][..0] == [];
    assert Total([-1]) == -1 + Total([]);
    assert Total([-1][..0]) % 255 + [-1][0] < 0;
  }

  /** A negative byte behind enough positive ones does no harm. */
  lemma HarmlessNegativeByte()
    ensures AreChars([100, -50]) && NeverNegative([100, -50]) && Sums([100, -50]) == (50, 150)
  {
    PairSums(100, -50);
    var s := [100, -50];
    assert s[..0] == [] && s[..1] == [100] && [100][1..] == [];
    assert Total([100]) == 100 + Total([]);
    NeverNegativeSums(s);
  }

  lemma PairSums(a: int, b: int)
    ensures Total([a, b]) == a + b && Weighted([a, b]) == 2 * a + b
  {
    assert [a, b][1..] == [b] && [b][1..] == [];
    assert Total([b]) == b + Total([]) && Weighted([b]) == 1 * b + Weighted([]);
  }
}
