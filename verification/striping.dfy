/** How logical pages are spread over the planes a stream may use. */
module Striping {
  import opened FlashTypes
  import AddressCodec

  /** The coordinates a stream's domain may use, each in its own order. */
  datatype Domain = Domain(channels: seq<nat>, chips: seq<nat>, dies: seq<nat>, planes: seq<nat>)

  ghost predicate Distinct(s: seq<nat>) {
    forall i, j :: 0 <= i < j < |s| ==> s[i] != s[j]
  }

  /** Every dimension of the domain has a coordinate to offer. */
  predicate Nonempty(d: Domain) {
    |d.channels| > 0 && |d.chips| > 0 && |d.dies| > 0 && |d.planes| > 0
  }

  ghost predicate GoodDomain(d: Domain) {
    Nonempty(d) && Distinct(d.channels) && Distinct(d.chips) && Distinct(d.dies) && Distinct(d.planes)
  }

  function Ways(d: Domain): nat { |d.channels| * |d.chips| * |d.dies| * |d.planes| }

  /** AllocatePlaneForUserWrite: channel first, then chip, die and plane. */
  function Stripe(d: Domain, lpa: nat): PlaneId
    requires Nonempty(d)
  {
    var c, k, e := |d.channels|, |d.chips|, |d.dies|;
    ProductsArePositive(d);
    PlaneId(d.channels[lpa % c], d.chips[(lpa / c) % k], d.dies[(lpa / (c * k)) % e],
            d.planes[(lpa / (c * k * e)) % |d.planes|])
  }

  lemma ProductsArePositive(d: Domain)
    requires Nonempty(d)
    ensures |d.channels| * |d.chips| > 0 && |d.channels| * |d.chips| * |d.dies| > 0 && Ways(d) > 0
  {
    var ck := |d.channels| * |d.chips|;
    AddressCodec.AtLeast(|d.channels|, |d.chips|);
    AddressCodec.AtLeast(ck, |d.dies|);
    AddressCodec.AtLeast(ck * |d.dies|, |d.planes|);
  }

  // ----- digits -----

  lemma SplitQuotient(x: nat, a: nat, b: nat)
    requires a > 0 && b > 0 && a * b > 0
    ensures x / (a * b) == (x / a) / b
    ensures x % (a * b) == a * ((x / a) % b) + x % a
  {
    var q, r := x / a, x % a;
    var q', r' := q / b, q % b;
    AddressCodec.Quotient(a, x);
    AddressCodec.Quotient(b, q);
    AddressCodec.DigitBound(a, b, r', r);
    assert b * a == a * b;
    assert a * q == (a * b) * q' + a * r' by {
      assert q == b * q' + r';
      Distribute(a, b, q', r');
    }
    AddressCodec.Digit(a * b, q', a * r' + r);
  }

  lemma Distribute(a: nat, b: nat, q: nat, r: nat)
    ensures a * (b * q + r) == (a * b) * q + a * r
  {
  }

  /** Two numbers agree modulo a*b exactly when they agree modulo a and their quotients by a
      agree modulo b. */
  lemma AgreeModProduct(x: nat, y: nat, a: nat, b: nat)
    requires a > 0 && b > 0 && a * b > 0
    ensures x % (a * b) == y % (a * b) <==> x % a == y % a && (x / a) % b == (y / a) % b
  {
    SplitQuotient(x, a, b);
    SplitQuotient(y, a, b);
    var x0, x1, y0, y1 := x % a, (x / a) % b, y % a, (y / a) % b;
    if x % (a * b) == y % (a * b) {
      AddressCodec.Digit(a, x1, x0);
      AddressCodec.Digit(a, y1, y0);
    }
  }

  lemma AgreeOnDigits(d: Domain, x: nat, y: nat)
    requires Nonempty(d)
    ensures var c, k, e, l := |d.channels|, |d.chips|, |d.dies|, |d.planes|;
            && c * k > 0 && c * k * e > 0 && Ways(d) > 0
            && (x % Ways(d) == y % Ways(d) <==>
                  && x % c == y % c && (x / c) % k == (y / c) % k
                  && (x / (c * k)) % e == (y / (c * k)) % e
                  && (x / (c * k * e)) % l == (y / (c * k * e)) % l)
  {
    var c, k, e, l := |d.channels|, |d.chips|, |d.dies|, |d.planes|;
    ProductsArePositive(d);
    AgreeModProduct(x, y, c, k);
    AgreeModProduct(x, y, c * k, e);
    AgreeModProduct(x, y, c * k * e, l);
  }

  /** With distinct coordinates, two logical pages of a stream share a plane exactly when they
      are congruent modulo the number of planes of the domain. */
  lemma SharePlaneIffCongruent(d: Domain, x: nat, y: nat)
    requires GoodDomain(d)
    ensures Ways(d) > 0
    ensures Stripe(d, x) == Stripe(d, y) <==> x % Ways(d) == y % Ways(d)
  {
    AgreeOnDigits(d, x, y);
  }

  // ----- windows -----

  /** The member of a residue class in a window of n consecutive numbers. */
  lemma InWindow(n: nat, start: nat, r: nat) returns (x: nat)
    requires r < n
    ensures start <= x < start + n && x % n == r
  {
    var s := start % n;
    AddressCodec.Quotient(n, start);
    var q := start / n;
    if s <= r {
      x := n * q + r;
      AddressCodec.Digit(n, q, r);
    } else {
      x := n * (q + 1) + r;
      assert n * (q + 1) == n * q + n;
      AddressCodec.Digit(n, q + 1, r);
    }
  }

  lemma WindowIsInjective(n: nat, start: nat, x: nat, y: nat)
    requires n > 0 && start <= x < start + n && start <= y < start + n && x % n == y % n
    ensures x == y
  {
    AddressCodec.Quotient(n, x);
    AddressCodec.Quotient(n, y);
    if x / n < y / n { AddressCodec.Spread(n, x / n, y / n); }
    if y / n < x / n { AddressCodec.Spread(n, y / n, x / n); }
  }

  /** The number below Ways(d) with the given digits. */
  function FromDigits(d: Domain, i: nat, j: nat, m: nat, n: nat): nat {
    var c, k, e := |d.channels|, |d.chips|, |d.dies|;
    (c * k * e) * n + ((c * k) * m + (c * j + i))
  }

  lemma DigitsOf(d: Domain, i: nat, j: nat, m: nat, n: nat)
    requires Nonempty(d) && i < |d.channels| && j < |d.chips| && m < |d.dies| && n < |d.planes|
    ensures FromDigits(d, i, j, m, n) < Ways(d)
    ensures Stripe(d, FromDigits(d, i, j, m, n)) == PlaneId(d.channels[i], d.chips[j], d.dies[m], d.planes[n])
  {
    var c, k, e, l := |d.channels|, |d.chips|, |d.dies|, |d.planes|;
    ProductsArePositive(d);
    hide Ways, FromDigits;
    var x2 := (c * k) * m + (c * j + i);
    var x := (c * k * e) * n + x2;
    assert x == FromDigits(d, i, j, m, n) by { DigitsDefinition(d, i, j, m, n); }
    DigitsBelow(c, k, e, l, i, j, m, n);
    LowDigits(x, x2, c, k, e, n, m, j, i);
    AddressCodec.Digit(c * k * e, n, x2);
    Residue(l, n);
    assert Ways(d) == c * k * e * l by { DigitsDefinition(d, i, j, m, n); }
  }

  lemma DigitsDefinition(d: Domain, i: nat, j: nat, m: nat, n: nat)
    ensures var c, k, e, l := |d.channels|, |d.chips|, |d.dies|, |d.planes|;
            && FromDigits(d, i, j, m, n) == (c * k * e) * n + ((c * k) * m + (c * j + i))
            && Ways(d) == c * k * e * l
  {
  }

  lemma DigitsBelow(c: nat, k: nat, e: nat, l: nat, i: nat, j: nat, m: nat, n: nat)
    requires i < c && j < k && m < e && n < l
    ensures (c * k) * m + (c * j + i) < c * k * e
    ensures (c * k * e) * n + ((c * k) * m + (c * j + i)) < c * k * e * l
  {
    var ck := c * k;
    AddressCodec.DigitBound(c, k, j, i);
    assert k * c == ck;
    AddressCodec.DigitBound(ck, e, m, c * j + i);
    var cke := ck * e;
    assert e * ck == cke;
    AddressCodec.DigitBound(cke, l, n, ck * m + (c * j + i));
    assert l * cke == cke * l;
  }

  lemma LowDigits(x: nat, x2: nat, c: nat, k: nat, e: nat, n: nat, m: nat, j: nat, i: nat)
    requires c > 0 && k > 0 && e > 0 && c * k > 0 && c * k * e > 0
    requires i < c && j < k && m < e
    requires x2 == (c * k) * m + (c * j + i) && x == (c * k * e) * n + x2
    ensures x % c == i && (x / c) % k == j && (x / (c * k)) % e == m
  {
    var y := e * n + m;
    Regroup(x, c * k, e, n, m, c * j + i);
    ThirdDigit(x, y, c, k, e, n, m, j, i);
    FirstDigits(x, y, c, k, j, i);
  }

  lemma Regroup(x: nat, ck: nat, e: nat, n: nat, m: nat, low: nat)
    requires x == (ck * e) * n + (ck * m + low)
    ensures x == ck * (e * n + m) + low
  {
    Distribute(ck, e, n, m);
  }

  lemma ThirdDigit(x: nat, y: nat, c: nat, k: nat, e: nat, n: nat, m: nat, j: nat, i: nat)
    requires c * k > 0 && i < c && j < k && m < e
    requires x == (c * k) * y + (c * j + i) && y == e * n + m
    ensures (x / (c * k)) % e == m
  {
    AddressCodec.DigitBound(c, k, j, i);
    assert k * c == c * k;
    AddressCodec.Digit(c * k, y, c * j + i);
    AddressCodec.Digit(e, n, m);
  }

  lemma FirstDigits(x: nat, y: nat, c: nat, k: nat, j: nat, i: nat)
    requires c > 0 && k > 0 && i < c && j < k && x == (c * k) * y + (c * j + i)
    ensures x % c == i && (x / c) % k == j
  {
    var z := k * y + j;
    Distribute(c, k, y, j);
    AddressCodec.Digit(c, z, i);
    AddressCodec.Digit(k, y, j);
  }

  /** Any Ways(d) consecutive logical pages hit every plane of the domain exactly once. */
  lemma WindowHitsEveryPlaneOnce(d: Domain, start: nat, i: nat, j: nat, m: nat, n: nat) returns (lpa: nat)
    requires GoodDomain(d) && i < |d.channels| && j < |d.chips| && m < |d.dies| && n < |d.planes|
    ensures var p := PlaneId(d.channels[i], d.chips[j], d.dies[m], d.planes[n]);
            && start <= lpa < start + Ways(d) && Stripe(d, lpa) == p
            && forall x: nat :: start <= x < start + Ways(d) && Stripe(d, x) == p ==> x == lpa
  {
    var r := FromDigits(d, i, j, m, n);
    DigitsOf(d, i, j, m, n);
    lpa := InWindow(Ways(d), start, r);
    Residue(Ways(d), r);
    SharePlaneIffCongruent(d, lpa, r);
    forall x: nat | start <= x < start + Ways(d) && Stripe(d, x) == Stripe(d, lpa) ensures x == lpa {
      SharePlaneIffCongruent(d, x, lpa);
      WindowIsInjective(Ways(d), start, x, lpa);
    }
    hide Stripe, Ways, FromDigits, Distinct;
  }

  lemma Residue(n: nat, r: nat)
    requires r < n
    ensures r % n == r
  {
  }
}
