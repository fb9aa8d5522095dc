/** Regrouping of bit strings, the arithmetic under base64 and base32: a sequence of
    digits of one width is spread into bits and gathered into digits of another. */
module Bits {
  type byte = x: int | 0 <= x < 256

  type bytes = seq<byte>

  function Pow2(n: nat): (r: nat)
    ensures r > 0
  {
    if n == 0 then 1 else 2 * Pow2(n - 1)
  }

  function Pow256(n: nat): (r: nat)
    ensures r > 0
  {
    if n == 0 then 1 else 256 * Pow256(n - 1)
  }

  /** The `k` bits of `x`, most significant first. */
  function BitsOf(k: nat, x: nat): (b: seq<bool>)
    requires x < Pow2(k)
    ensures |b| == k
  {
    if k == 0 then [] else BitsOf(k - 1, x / 2) + [x % 2 == 1]
  }

  /** The number whose bits, most significant first, are `b`. */
  function NatOf(b: seq<bool>): (x: nat)
    ensures x < Pow2(|b|)
  {
    if b == [] then 0 else 2 * NatOf(b[..|b| - 1]) + (if b[|b| - 1] then 1 else 0)
  }

  ghost predicate Digits(k: nat, ds: seq<nat>) {
    forall i | 0 <= i < |ds| :: ds[i] < Pow2(k)
  }

  /** The bits of all digits, one after the other. */
  function Spread(k: nat, ds: seq<nat>): (b: seq<bool>)
    requires Digits(k, ds)
    ensures |b| == k * |ds|
  {
    if ds == [] then [] else BitsOf(k, ds[0]) + Spread(k, ds[1..])
  }

  /** Every `k` bits read as one digit. */
  function Gather(k: nat, b: seq<bool>): (ds: seq<nat>)
    requires k > 0 && |b| % k == 0
    ensures Digits(k, ds) && k * |ds| == |b|
  {
    if b == [] then []
    else
      CutOne(k, |b|);
      var rest := Gather(k, b[k..]);
      assert k * (1 + |rest|) == k + k * |rest|;
      [NatOf(b[..k])] + rest
  }

  lemma CutOne(k: nat, n: nat)
    requires 0 < k && 0 < n && n % k == 0
    ensures k <= n && (n - k) % k == 0
  {
    assert n == k * (n / k);
    assert n - k == k * (n / k - 1);
    MulSign(k, n / k);
    ModOfMultiple(k, n / k - 1);
  }

  lemma ModOfMultiple(k: nat, q: int)
    requires 0 < k
    ensures (k * q) % k == 0
  {
    var p := (k * q) / k;
    assert k * q == k * p + (k * q) % k;
    MulSign(k, q - p);
    assert k * (q - p) == k * q - k * p;
  }

  lemma MulSign(k: int, d: int)
    requires k >= 0
    ensures d >= 1 ==> k * d >= k
    ensures d <= 0 ==> k * d <= 0
    ensures d <= -1 ==> k * d <= -k
  {}

  lemma QuotientIs(n: nat, m: nat, q: nat, r: nat)
    requires n == m * q + r && r < m
    ensures n / m == q && n % m == r
  {
    var q' := n / m;
    assert n == m * q' + n % m;
    MulSign(m, q - q');
    assert m * (q - q') == m * q - m * q';
  }

  lemma {:induction false} NatOfBitsOf(k: nat, x: nat)
    requires x < Pow2(k)
    ensures NatOf(BitsOf(k, x)) == x
  {
    if k > 0 {
      NatOfBitsOf(k - 1, x / 2);
      var b := BitsOf(k, x);
      assert b[..k - 1] == BitsOf(k - 1, x / 2);
    }
  }

  lemma {:induction false} BitsOfNatOf(b: seq<bool>)
    ensures BitsOf(|b|, NatOf(b)) == b
  {
    if b != [] {
      BitsOfNatOf(b[..|b| - 1]);
      assert NatOf(b) / 2 == NatOf(b[..|b| - 1]);
    }
  }

  /** Gathering undoes spreading. */
  lemma {:induction false} GatherSpread(k: nat, ds: seq<nat>)
    requires k > 0 && Digits(k, ds)
    ensures |Spread(k, ds)| % k == 0
    ensures Gather(k, Spread(k, ds)) == ds
  {
    ModOfMultiple(k, |ds|);
    if ds != [] {
      var b := Spread(k, ds);
      GatherSpread(k, ds[1..]);
      NatOfBitsOf(k, ds[0]);
      assert b[..k] == BitsOf(k, ds[0]) && b[k..] == Spread(k, ds[1..]);
    }
  }

  /** Spreading undoes gathering. */
  lemma {:induction false} SpreadGather(k: nat, b: seq<bool>)
    requires k > 0 && |b| % k == 0
    ensures Spread(k, Gather(k, b)) == b
  {
    hide NatOf, BitsOf;
    if b != [] {
      CutOne(k, |b|);
      SpreadGather(k, b[k..]);
      BitsOfNatOf(b[..k]);
      assert Gather(k, b)[1..] == Gather(k, b[k..]);
      assert b == b[..k] + b[k..];
    }
  }

  /** The number the digits denote in base `Pow2(k)`, most significant digit first. */
  function Value(k: nat, ds: seq<nat>): nat {
    if ds == [] then 0 else Value(k, ds[..|ds| - 1]) * Pow2(k) + ds[|ds| - 1]
  }

  /** The number octets denote in base 256. */
  function Number(b: bytes): nat {
    Value(8, b)
  }

  lemma LastOctet(b: bytes)
    requires b != []
    ensures Number(b) == 256 * Number(b[..|b| - 1]) + b[|b| - 1]
  {
    assert Pow2(4) == 16 && Pow2(8) == 256;
  }

  lemma {:induction false} NatOfConcat(a: seq<bool>, b: seq<bool>)
    ensures NatOf(a + b) == NatOf(a) * Pow2(|b|) + NatOf(b)
  {
    if b == [] {
      assert a + b == a;
    } else {
      var c := b[..|b| - 1];
      NatOfConcat(a, c);
      assert (a + b)[..|a + b| - 1] == a + c;
      OneMoreBit(NatOf(a), Pow2(|c|), NatOf(c), if b[|c|] then 1 else 0);
    }
  }

  lemma OneMoreBit(x: nat, p: nat, c: nat, bit: nat)
    ensures 2 * (x * p + c) + bit == x * (2 * p) + (2 * c + bit)
  {}

  lemma {:induction false} SpreadOneMore(k: nat, ds: seq<nat>, d: nat)
    requires Digits(k, ds) && d < Pow2(k)
    ensures Digits(k, ds + [d]) && Spread(k, ds + [d]) == Spread(k, ds) + BitsOf(k, d)
  {
    assert Digits(k, ds + [d]);
    if ds == [] {
      assert [] + [d] == [d];
    } else {
      SpreadOneMore(k, ds[1..], d);
      assert (ds + [d])[1..] == ds[1..] + [d];
    }
  }

  /** Spreading keeps the number. */
  lemma {:induction false} SpreadKeepsValue(k: nat, ds: seq<nat>)
    requires Digits(k, ds)
    ensures NatOf(Spread(k, ds)) == Value(k, ds)
  {
    if ds != [] {
      var p, d := ds[..|ds| - 1], ds[|ds| - 1];
      SpreadKeepsValue(k, p);
      SpreadOneMore(k, p, d);
      assert ds == p + [d];
      NatOfConcat(Spread(k, p), BitsOf(k, d));
      NatOfBitsOf(k, d);
    }
  }
}
