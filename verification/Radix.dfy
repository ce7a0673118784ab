/** Numbers in a base, most significant digit first, and regrouping of digits: base32
    takes five bytes for eight digits, base64 three bytes for four, hex one for two. */
module Radix {

  function Pow(b: nat, n: nat): nat {
    if n == 0 then 1 else b * Pow(b, n - 1)
  }

  predicate AreDigits(b: nat, d: seq<nat>) {
    forall i :: 0 <= i < |d| ==> d[i] < b
  }

  function Value(b: nat, d: seq<nat>): (v: nat)
    ensures d == [] ==> v == 0
  {
    if d == [] then 0 else Value(b, d[..|d| - 1]) * b + d[|d| - 1]
  }

  function Digits(b: nat, n: nat, v: nat): (d: seq<nat>)
    requires b > 0
    ensures |d| == n && AreDigits(b, d)
  {
    if n == 0 then [] else Digits(b, n - 1, v / b) + [v % b]
  }

  /** No multiple of b but zero lies strictly between -b and b. */
  lemma Between(b: nat, e: int)
    requires 0 < b * e + b < 2 * b
    ensures e == 0
  {
    assert e >= 1 ==> b * e >= b * 1;
    assert e <= -1 ==> b * e <= b * -1;
  }

  lemma DivideSum(b: nat, q: nat, r: nat)
    requires r < b
    ensures (q * b + r) / b == q && (q * b + r) % b == r
  {
    var v := q * b + r;
    var e := v / b - q;
    assert v == b * (v / b) + v % b;
    assert b * e == r - v % b by {
      assert b * e == b * (v / b) - b * q;
    }
    Between(b, e);
  }

  lemma DivideAgain(b: nat, v: nat)
    requires b > 0
    ensures v / b >= 0 && (v / b) * b + v % b == v
  {
  }

  lemma DivideBound(b: nat, v: nat, p: nat)
    requires b > 0 && v < b * p
    ensures v / b < p
  {
    assert v == b * (v / b) + v % b;
    var q := v / b;
    assert q >= p ==> b * q >= b * p;
  }

  lemma ValueSnoc(b: nat, d: seq<nat>, x: nat)
    ensures Value(b, d + [x]) == Value(b, d) * b + x
  {
    assert (d + [x])[..|d|] == d;
  }

  lemma {:induction false} ValueOfDigits(b: nat, n: nat, v: nat)
    requires b > 0 && v < Pow(b, n)
    ensures Value(b, Digits(b, n, v)) == v
  {
    hide Value;
    if n == 0 {
    } else {
      DivideBound(b, v, Pow(b, n - 1));
      ValueOfDigits(b, n - 1, v / b);
      ValueSnoc(b, Digits(b, n - 1, v / b), v % b);
      DivideAgain(b, v);
    }
  }

  lemma {:induction false} DigitsOfValue(b: nat, d: seq<nat>)
    requires b > 0 && AreDigits(b, d)
    ensures Digits(b, |d|, Value(b, d)) == d
  {
    if d == [] {
    } else {
      var init := d[..|d| - 1];
      DigitsOfValue(b, init);
      DivideSum(b, Value(b, init), d[|d| - 1]);
      assert d == init + [d[|d| - 1]];
    }
  }

  lemma BelowNext(b: nat, q: nat, r: nat, p: nat)
    requires r < b && q < p
    ensures q * b + r < b * p
  {
    assert q * b + b == b * (q + 1);
    assert b * (q + 1) <= b * p;
  }

  lemma {:induction false} ValueBound(b: nat, d: seq<nat>)
    requires AreDigits(b, d)
    ensures Value(b, d) < Pow(b, |d|)
  {
    if d == [] {
    } else {
      ValueBound(b, d[..|d| - 1]);
      BelowNext(b, Value(b, d[..|d| - 1]), d[|d| - 1], Pow(b, |d| - 1));
    }
  }

  lemma Distribute(x: nat, p: nat, y: nat, b: nat)
    ensures (x * p + y) * b == x * (b * p) + y * b
  {
    assert (x * p + y) * b == (x * p) * b + y * b;
    assert (x * p) * b == x * (b * p);
  }

  /** The first digit weighs as much as all the places after it. */
  lemma {:induction false} FirstDigit(b: nat, d: seq<nat>)
    requires d != []
    ensures Value(b, d) == d[0] * Pow(b, |d| - 1) + Value(b, d[1..])
  {
    var n := |d| - 1;
    if n == 0 {
      assert d[..0] == [] && d[1..] == [];
      assert Value(b, d) == Value(b, d[..0]) * b + d[0];
      assert d[0] * Pow(b, 0) == d[0];
    } else {
      var init := d[..n];
      FirstDigit(b, init);
      assert init[1..] == d[1..][..n - 1];
      Distribute(d[0], Pow(b, n - 1), Value(b, init[1..]), b);
    }
  }

  /** Each group of n digits in base b becomes m digits in base c; a rest is dropped. */
  function Regroup(b: nat, n: nat, c: nat, m: nat, s: seq<nat>): (r: seq<nat>)
    requires n > 0 && c > 0
    ensures AreDigits(c, r)
  {
    if |s| < n then [] else Digits(c, m, Value(b, s[..n])) + Regroup(b, n, c, m, s[n..])
  }

  lemma LessOne(k: nat, n: nat)
    requires k > 0
    ensures k * n == (k - 1) * n + n
  {
  }

  lemma {:induction false} RegroupLength(b: nat, n: nat, c: nat, m: nat, s: seq<nat>, k: nat)
    requires n > 0 && c > 0 && |s| == k * n
    ensures |Regroup(b, n, c, m, s)| == k * m
  {
    if k == 0 {
    } else {
      LessOne(k, n);
      LessOne(k, m);
      RegroupLength(b, n, c, m, s[n..], k - 1);
    }
  }

  lemma RegroupStep(b: nat, n: nat, c: nat, m: nat, g: seq<nat>, rest: seq<nat>)
    requires n > 0 && c > 0 && |g| == n
    ensures Regroup(b, n, c, m, g + rest) == Digits(c, m, Value(b, g)) + Regroup(b, n, c, m, rest)
  {
    hide Value, Digits;
    assert (g + rest)[..n] == g && (g + rest)[n..] == rest;
  }

  lemma GroupBack(b: nat, c: nat, m: nat, g: seq<nat>)
    requires b > 0 && c > 0 && Pow(b, |g|) == Pow(c, m) && AreDigits(b, g)
    ensures Digits(b, |g|, Value(c, Digits(c, m, Value(b, g)))) == g
  {
    hide Value, Digits, Pow;
    ValueBound(b, g);
    ValueOfDigits(c, m, Value(b, g));
    DigitsOfValue(b, g);
  }

  /** Regrouping loses nothing when a group of either kind holds the same numbers. */
  lemma {:induction false} RegroupBack(b: nat, n: nat, c: nat, m: nat, s: seq<nat>, k: nat)
    requires n > 0 && m > 0 && b > 0 && c > 0 && Pow(b, n) == Pow(c, m)
    requires |s| == k * n && AreDigits(b, s)
    ensures Regroup(c, m, b, n, Regroup(b, n, c, m, s)) == s
  {
    hide Value, Digits, Pow;
    if k > 0 {
      LessOne(k, n);
      var g, t := s[..n], s[n..];
      assert s == g + t;
      RegroupBack(b, n, c, m, t, k - 1);
      GroupBack(b, c, m, g);
      RegroupStep(b, n, c, m, g, t);
      RegroupStep(c, m, b, n, Digits(c, m, Value(b, g)), Regroup(b, n, c, m, t));
    } else {
      assert s == [];
    }
  }

  lemma AddJoin(x: seq<nat>, y: seq<nat>, z: seq<nat>)
    ensures x + (y + z) == (x + y) + z
  {
  }

  /** The groups of a text are those of its whole prefix, then those of the rest. */
  lemma {:induction false} RegroupJoin(b: nat, n: nat, c: nat, m: nat, s: seq<nat>, t: seq<nat>, k: nat)
    requires n > 0 && c > 0 && |s| == k * n
    ensures Regroup(b, n, c, m, s + t) == Regroup(b, n, c, m, s) + Regroup(b, n, c, m, t)
  {
    hide Value, Digits;
    if k > 0 {
      LessOne(k, n);
      var g, u := s[..n], s[n..];
      assert s == g + u && s + t == g + (u + t);
      RegroupJoin(b, n, c, m, u, t, k - 1);
      RegroupStep(b, n, c, m, g, u);
      RegroupStep(b, n, c, m, g, u + t);
      AddJoin(Digits(c, m, Value(b, g)), Regroup(b, n, c, m, u), Regroup(b, n, c, m, t));
    } else {
      assert s == [] && s + t == t;
    }
  }
}
