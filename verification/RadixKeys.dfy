/**
  Keys of the radix trees: numbers of an even number of bits as sequences of two-bit digits,
  highest first.
 */
module RadixKeys {
  import opened Powers

  // ---------- Shifts and masks ----------

  function Quotient(v: nat, m: nat): nat
    requires m > 0
  {
    v / m
  }

  function Shr(v: nat, k: nat): nat { Quotient(v, Pow2(k)) }
  function Low(v: nat, k: nat): nat { v % Pow2(k) }

  lemma FourTimes(k: nat)
    requires k >= 2
    ensures Pow2(k) == 4 * Pow2(k - 2)
  {
    assert Pow2(k - 1) == 2 * Pow2(k - 2);
  }

  // ---------- Digits ----------

  /** The n / 2 lowest digits of v. */
  function Digits(v: nat, n: nat): (s: seq<nat>)
    ensures |s| == n / 2 && forall i | 0 <= i < |s| :: s[i] < 4
  {
    if n < 2 then [] else Digits(v / 4, n - 2) + [v % 4]
  }

  ghost predicate AreDigits(s: seq<nat>) { forall i | 0 <= i < |s| :: s[i] < 4 }

  ghost predicate Key(k: seq<nat>, n: nat) { |k| == n && AreDigits(k) }

  /** The number that digits stand for. */
  function Number(s: seq<nat>): nat {
    if s == [] then 0 else 4 * Number(s[..|s| - 1]) + s[|s| - 1]
  }

  lemma {:induction false} NumberBound(s: seq<nat>)
    requires AreDigits(s)
    ensures Number(s) < Pow2(2 * |s|)
  {
    if s != [] {
      NumberBound(s[..|s| - 1]);
      FourTimes(2 * |s|);
    }
  }

  lemma LastDigit(x: nat, d: nat)
    requires d < 4
    ensures (4 * x + d) / 4 == x && (4 * x + d) % 4 == d
  {
  }

  lemma {:induction false} DigitsOfNumber(s: seq<nat>)
    requires AreDigits(s)
    ensures Digits(Number(s), 2 * |s|) == s
  {
    if s != [] {
      var front := s[..|s| - 1];
      DigitsOfNumber(front);
      hide AreDigits;
      LastDigit(Number(front), s[|s| - 1]);
      assert s == front + [s[|s| - 1]];
    }
  }

  lemma {:induction false} NumberOfDigits(v: nat, n: nat)
    requires n % 2 == 0 && v < Pow2(n)
    ensures Number(Digits(v, n)) == v
  {
    if n >= 2 {
      FourTimes(n);
      NumberOfDigits(v / 4, n - 2);
      assert Digits(v, n)[..n / 2 - 1] == Digits(v / 4, n - 2);
    }
  }

  lemma Regroup(m: nat, q: nat, r: nat, y: nat)
    ensures 4 * (m * q + r) + y == (4 * m) * q + (4 * r + y)
  {
  }

  /** Dividing by 4 * m in two steps. */
  lemma Quarter(v: nat, m: nat)
    requires m > 0
    ensures v / (4 * m) == v / 4 / m && v % (4 * m) == 4 * (v / 4 % m) + v % 4
  {
    var q, r := v / 4 / m, v / 4 % m;
    Regroup(m, q, r, v % 4);
    QuotientIs(v, 4 * m, q, 4 * r + v % 4);
  }

  lemma ShrTwice(v: nat, k: nat)
    requires k >= 2
    ensures Shr(v, k) == Shr(v / 4, k - 2)
  {
    FourTimes(k);
    Quarter(v, Pow2(k - 2));
  }

  lemma ShrNothing(v: nat)
    ensures Shr(v, 0) == v
  {
  }

  lemma Regrouped(a: seq<nat>, b: seq<nat>, c: seq<nat>)
    ensures (a + b) + c == a + (b + c)
  {
  }

  /** Shifting and masking cut the digits in two. */
  lemma {:induction false} DigitsSplit(v: nat, n: nat, k: nat)
    requires k <= n && n % 2 == k % 2 == 0
    ensures Digits(v, n) == Digits(Shr(v, k), n - k) + Digits(v, k)
  {
    hide Shr;
    if k >= 2 {
      DigitsSplit(v / 4, n - 2, k - 2);
      ShrTwice(v, k);
      Regrouped(Digits(Shr(v, k), n - k), Digits(v / 4, k - 2), [v % 4]);
    } else {
      ShrNothing(v);
    }
  }

  lemma LowParts(v: nat, k: nat)
    requires k >= 2
    ensures Low(v, k) / 4 == Low(v / 4, k - 2) && Low(v, k) % 4 == v % 4
  {
    FourTimes(k);
    Quarter(v, Pow2(k - 2));
  }

  lemma {:induction false} DigitsOfLow(v: nat, n: nat, k: nat)
    requires n <= k && n % 2 == k % 2 == 0
    ensures Digits(Low(v, k), n) == Digits(v, n)
  {
    if n >= 2 {
      LowParts(v, k);
      DigitsOfLow(v / 4, n - 2, k - 2);
    }
  }

  lemma SameDigits(v: nat, w: nat, n: nat)
    requires n % 2 == 0 && v < Pow2(n) && w < Pow2(n) && Digits(v, n) == Digits(w, n)
    ensures v == w
  {
    NumberOfDigits(v, n);
    NumberOfDigits(w, n);
  }

  /** The bits of v from mov - len up to mov, as a number. */
  function Field(v: nat, mov: nat, len: nat): nat
    requires len <= mov
  {
    Low(Shr(v, mov - len), len)
  }

  lemma FieldIs(v: nat, mov: nat, len: nat)
    requires len <= mov && mov % 2 == len % 2 == 0
    ensures Field(v, mov, len) < Pow2(len)
    ensures Digits(Field(v, mov, len), len) == Digits(v, mov)[..len / 2]
    ensures Digits(v, mov)[len / 2..] == Digits(v, mov - len)
    ensures Field(v, mov, len) == Number(Digits(v, mov)[..len / 2])
  {
    DigitsSplit(v, mov, mov - len);
    DigitsOfLow(Shr(v, mov - len), len, len);
    NumberOfDigits(Field(v, mov, len), len);
  }

  // ---------- Common prefixes ----------

  /** The length of the longest common prefix. */
  function Common(a: seq<nat>, b: seq<nat>): (m: nat)
    ensures m <= |a| && m <= |b| && a[..m] == b[..m]
    ensures m < |a| && m < |b| ==> a[m] != b[m]
  {
    if a == [] || b == [] || a[0] != b[0] then 0
    else
      var m := Common(a[1..], b[1..]);
      assert a[..m + 1] == [a[0]] + a[1..][..m] && b[..m + 1] == [b[0]] + b[1..][..m];
      m + 1
  }

  lemma CommonIs(a: seq<nat>, b: seq<nat>, m: nat)
    requires m < |a| && m < |b| && a[..m] == b[..m] && a[m] != b[m]
    ensures Common(a, b) == m
  {
    var c := Common(a, b);
    forall i | 0 <= i < m ensures a[i] == b[i] { assert a[..m][i] == b[..m][i]; }
    forall i | 0 <= i < c ensures a[i] == b[i] { assert a[..c][i] == b[..c][i]; }
  }
}
