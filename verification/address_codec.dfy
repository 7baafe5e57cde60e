/** Physical page numbers as mixed-radix numerals of the six coordinates. */
module AddressCodec {
  import opened FlashTypes

  const TWO_64: nat := 0x1_0000_0000_0000_0000
  const NO_VALUE: nat := 0xffff_ffff_ffff_ffff

  /** The device dimensions and the page counts the translation layer keeps beside them. */
  datatype Geometry = Geometry(
    channels: nat,
    chipsPerChannel: nat,
    diesPerChip: nat,
    planesPerDie: nat,
    blocksPerPlane: nat,
    pagesPerBlock: nat,
    pagesPerPlane: nat,
    pagesPerDie: nat,
    pagesPerChip: nat,
    pagesPerChannel: nat)

  /** The page counts are the products of the dimensions. */
  predicate Consistent(g: Geometry) {
    && g.channels > 0 && g.chipsPerChannel > 0 && g.diesPerChip > 0
    && g.planesPerDie > 0 && g.blocksPerPlane > 0 && g.pagesPerBlock > 0
    && g.pagesPerPlane == g.blocksPerPlane * g.pagesPerBlock
    && g.pagesPerDie == g.planesPerDie * g.pagesPerPlane
    && g.pagesPerChip == g.diesPerChip * g.pagesPerDie
    && g.pagesPerChannel == g.chipsPerChannel * g.pagesPerChip
  }

  function TotalPages(g: Geometry): nat { g.channels * g.pagesPerChannel }

  predicate InPlaneBox(g: Geometry, p: PlaneId) {
    p.channel < g.channels && p.chip < g.chipsPerChannel && p.die < g.diesPerChip && p.plane < g.planesPerDie
  }

  predicate InBox(g: Geometry, a: PageAddr) {
    InPlaneBox(g, a.plane) && a.block < g.blocksPerPlane && a.page < g.pagesPerBlock
  }

  /** ConvertPPAtoAddress: None is the error for a geometry that was never set. */
  function ToAddress(g: Geometry, ppa: nat): Option<PageAddr> {
    if g.pagesPerChannel == 0 || g.pagesPerChip == 0 || g.pagesPerDie == 0 || g.pagesPerPlane == 0
      || g.pagesPerBlock == 0
    then None
    else
      var inChannel := ppa % g.pagesPerChannel;
      var inChip := inChannel % g.pagesPerChip;
      var inDie := inChip % g.pagesPerDie;
      var inPlane := inDie % g.pagesPerPlane;
      Some(PageAddr(PlaneId(ppa / g.pagesPerChannel, inChannel / g.pagesPerChip,
                            inChip / g.pagesPerDie, inDie / g.pagesPerPlane),
                    inPlane / g.pagesPerBlock, inPlane % g.pagesPerBlock))
  }

  /** ConvertAddresstoPPA, before reduction modulo 2^64. */
  function ToPpa(g: Geometry, a: PageAddr): nat {
    g.pagesPerChip * (a.plane.channel * g.chipsPerChannel + a.plane.chip) + g.pagesPerDie * a.plane.die
    + g.pagesPerPlane * a.plane.plane + g.pagesPerBlock * a.block + a.page
  }

  // ----- one digit -----

  lemma {:induction false} Spread(m: nat, q: nat, q': nat)
    requires q < q'
    ensures m * q + m <= m * q'
  {
    if q + 1 < q' {
      Spread(m, q, q' - 1);
      assert m * q' == m * (q' - 1) + m;
    } else {
      assert m * (q + 1) == m * q + m;
    }
  }

  lemma Quotient(m: nat, x: nat)
    requires m > 0
    ensures m * (x / m) + x % m == x && x % m < m
  {
  }

  /** A number has one quotient and one remainder. */
  lemma Digit(m: nat, q: nat, r: nat)
    requires r < m
    ensures (m * q + r) / m == q && (m * q + r) % m == r
  {
    var x := m * q + r;
    var q', r' := x / m, x % m;
    assert m * q' + r' == x && r' < m by { Quotient(m, x); }
    if q' < q { Spread(m, q', q); }
    if q < q' { Spread(m, q, q'); }
  }

  lemma DigitBound(m: nat, n: nat, q: nat, r: nat)
    requires r < m && q < n
    ensures m * q + r < n * m
  {
    Spread(m, q, n);
    assert m * n == n * m;
  }

  lemma QuotientBound(m: nat, n: nat, x: nat)
    requires m > 0 && x < n * m
    ensures x / m < n
  {
    Quotient(m, x);
    var q := x / m;
    if n < q { Spread(m, n, q); }
    assert m * n == n * m;
  }

  lemma DigitOrder(m: nat, q: nat, r: nat, q': nat, r': nat)
    requires r < m && r' < m
    ensures m * q + r < m * q' + r' <==> q < q' || (q == q' && r < r')
  {
    if q < q' { Spread(m, q, q'); }
    if q' < q { Spread(m, q', q); }
  }

  // ----- the numeral from the page upwards -----

  function InPlane(g: Geometry, a: PageAddr): nat { g.pagesPerBlock * a.block + a.page }
  function InDie(g: Geometry, a: PageAddr): nat { g.pagesPerPlane * a.plane.plane + InPlane(g, a) }
  function InChip(g: Geometry, a: PageAddr): nat { g.pagesPerDie * a.plane.die + InDie(g, a) }
  function InChannel(g: Geometry, a: PageAddr): nat { g.pagesPerChip * a.plane.chip + InChip(g, a) }

  lemma Positive(g: Geometry)
    requires Consistent(g)
    ensures g.pagesPerPlane > 0 && g.pagesPerDie > 0 && g.pagesPerChip > 0 && g.pagesPerChannel > 0
  {
    DigitBound(g.pagesPerBlock, g.blocksPerPlane, 0, 0);
    DigitBound(g.pagesPerPlane, g.planesPerDie, 0, 0);
    DigitBound(g.pagesPerDie, g.diesPerChip, 0, 0);
    DigitBound(g.pagesPerChip, g.chipsPerChannel, 0, 0);
  }

  lemma PpaIsNumeral(g: Geometry, a: PageAddr)
    requires Consistent(g)
    ensures ToPpa(g, a) == g.pagesPerChannel * a.plane.channel + InChannel(g, a)
  {
    assert g.pagesPerChip * (a.plane.channel * g.chipsPerChannel + a.plane.chip)
           == (g.chipsPerChannel * g.pagesPerChip) * a.plane.channel + g.pagesPerChip * a.plane.chip;
  }

  lemma DigitsBounded(g: Geometry, a: PageAddr)
    requires Consistent(g) && InBox(g, a)
    ensures InPlane(g, a) < g.pagesPerPlane && InDie(g, a) < g.pagesPerDie
    ensures InChip(g, a) < g.pagesPerChip && InChannel(g, a) < g.pagesPerChannel
    ensures ToPpa(g, a) < TotalPages(g)
  {
    DigitBound(g.pagesPerBlock, g.blocksPerPlane, a.block, a.page);
    DigitBound(g.pagesPerPlane, g.planesPerDie, a.plane.plane, InPlane(g, a));
    DigitBound(g.pagesPerDie, g.diesPerChip, a.plane.die, InDie(g, a));
    DigitBound(g.pagesPerChip, g.chipsPerChannel, a.plane.chip, InChip(g, a));
    DigitBound(g.pagesPerChannel, g.channels, a.plane.channel, InChannel(g, a));
    PpaIsNumeral(g, a);
  }

  /** The digits found one after the other make up the address. */
  lemma Assembled(g: Geometry, ppa: nat, a: PageAddr, inChannel: nat, inChip: nat, inDie: nat, inPlane: nat)
    requires g.pagesPerChannel > 0 && g.pagesPerChip > 0 && g.pagesPerDie > 0 && g.pagesPerPlane > 0
    requires g.pagesPerBlock > 0
    requires ppa / g.pagesPerChannel == a.plane.channel && ppa % g.pagesPerChannel == inChannel
    requires inChannel / g.pagesPerChip == a.plane.chip && inChannel % g.pagesPerChip == inChip
    requires inChip / g.pagesPerDie == a.plane.die && inChip % g.pagesPerDie == inDie
    requires inDie / g.pagesPerPlane == a.plane.plane && inDie % g.pagesPerPlane == inPlane
    requires inPlane / g.pagesPerBlock == a.block && inPlane % g.pagesPerBlock == a.page
    ensures ToAddress(g, ppa) == Some(a)
  {
  }

  /** Encoding, then decoding, gives the address back, and the number is a page of the device. */
  lemma DecodeEncode(g: Geometry, a: PageAddr)
    requires Consistent(g) && InBox(g, a)
    ensures ToPpa(g, a) < TotalPages(g) && ToAddress(g, ToPpa(g, a)) == Some(a)
  {
    Positive(g);
    DigitsBounded(g, a);
    PpaIsNumeral(g, a);
    Digit(g.pagesPerChannel, a.plane.channel, InChannel(g, a));
    Digit(g.pagesPerChip, a.plane.chip, InChip(g, a));
    Digit(g.pagesPerDie, a.plane.die, InDie(g, a));
    Digit(g.pagesPerPlane, a.plane.plane, InPlane(g, a));
    Digit(g.pagesPerBlock, a.block, a.page);
    hide ToPpa, ToAddress, Consistent, InBox, TotalPages;
    Assembled(g, ToPpa(g, a), a, InChannel(g, a), InChip(g, a), InDie(g, a), InPlane(g, a));
  }

  /** Decoding, then encoding, gives the number back, and the address is in the device. */
  lemma EncodeDecode(g: Geometry, ppa: nat)
    requires Consistent(g) && ppa < TotalPages(g)
    ensures ToAddress(g, ppa).Some? && InBox(g, ToAddress(g, ppa).value)
    ensures ToPpa(g, ToAddress(g, ppa).value) == ppa
  {
    Positive(g);
    var inChannel := ppa % g.pagesPerChannel;
    var inChip := inChannel % g.pagesPerChip;
    var inDie := inChip % g.pagesPerDie;
    var inPlane := inDie % g.pagesPerPlane;
    var a := ToAddress(g, ppa).value;
    Quotient(g.pagesPerChannel, ppa);
    Quotient(g.pagesPerChip, inChannel);
    Quotient(g.pagesPerDie, inChip);
    Quotient(g.pagesPerPlane, inDie);
    Quotient(g.pagesPerBlock, inPlane);
    QuotientBound(g.pagesPerChannel, g.channels, ppa);
    QuotientBound(g.pagesPerChip, g.chipsPerChannel, inChannel);
    QuotientBound(g.pagesPerDie, g.diesPerChip, inChip);
    QuotientBound(g.pagesPerPlane, g.planesPerDie, inDie);
    QuotientBound(g.pagesPerBlock, g.blocksPerPlane, inPlane);
    PpaIsNumeral(g, a);
    hide ToPpa, Consistent;
  }

  /** Addresses compare as their coordinates do, channel first. */
  ghost predicate Before(a: PageAddr, b: PageAddr) {
    || a.plane.channel < b.plane.channel
    || (a.plane.channel == b.plane.channel &&
        (|| a.plane.chip < b.plane.chip
         || (a.plane.chip == b.plane.chip &&
             (|| a.plane.die < b.plane.die
              || (a.plane.die == b.plane.die &&
                  (|| a.plane.plane < b.plane.plane
                   || (a.plane.plane == b.plane.plane &&
                       (a.block < b.block || (a.block == b.block && a.page < b.page)))))))))
  }

  /** The encoding preserves the lexicographic order, in both directions. */
  lemma EncodeKeepsOrder(g: Geometry, a: PageAddr, b: PageAddr)
    requires Consistent(g) && InBox(g, a) && InBox(g, b)
    ensures ToPpa(g, a) < ToPpa(g, b) <==> Before(a, b)
  {
    DigitsBounded(g, a);
    DigitsBounded(g, b);
    PpaIsNumeral(g, a);
    PpaIsNumeral(g, b);
    DigitOrder(g.pagesPerChannel, a.plane.channel, InChannel(g, a), b.plane.channel, InChannel(g, b));
    DigitOrder(g.pagesPerChip, a.plane.chip, InChip(g, a), b.plane.chip, InChip(g, b));
    DigitOrder(g.pagesPerDie, a.plane.die, InDie(g, a), b.plane.die, InDie(g, b));
    DigitOrder(g.pagesPerPlane, a.plane.plane, InPlane(g, a), b.plane.plane, InPlane(g, b));
    DigitOrder(g.pagesPerBlock, a.block, a.page, b.block, b.page);
    hide ToPpa, Consistent;
  }

  /** Every product and partial sum of the encoding of a device page stays in 64 bits. */
  lemma EncodeDoesNotOverflow(g: Geometry, a: PageAddr)
    requires Consistent(g) && InBox(g, a) && TotalPages(g) <= TWO_64
    ensures a.plane.channel * g.chipsPerChannel + a.plane.chip < TWO_64
    ensures g.pagesPerChip * (a.plane.channel * g.chipsPerChannel + a.plane.chip) < TWO_64
    ensures g.pagesPerDie * a.plane.die < TWO_64 && g.pagesPerPlane * a.plane.plane < TWO_64
    ensures g.pagesPerBlock * a.block < TWO_64 && ToPpa(g, a) < TWO_64
  {
    DigitsBounded(g, a);
    Positive(g);
    hide Consistent, TotalPages, InBox, InPlane, InDie, InChip, InChannel;
    var q := a.plane.channel * g.chipsPerChannel + a.plane.chip;
    AtLeast(g.pagesPerChip, q);
    var chip: nat, die: nat, plane: nat, block: nat :=
      g.pagesPerChip * q, g.pagesPerDie * a.plane.die, g.pagesPerPlane * a.plane.plane, g.pagesPerBlock * a.block;
    assert ToPpa(g, a) == chip + die + plane + block + a.page;
  }

  lemma AtLeast(m: nat, q: nat)
    requires m > 0
    ensures q <= m * q
  {
    if q > 0 { Spread(q, 0, m); }
    assert m * q == q * m;
  }

  /** Decoding NO_VALUE leaves the device exactly when NO_VALUE is not one of its page numbers. */
  lemma NoValueIsOutside(g: Geometry)
    requires Consistent(g)
    ensures ToAddress(g, NO_VALUE).Some?
    ensures InPlaneBox(g, ToAddress(g, NO_VALUE).value.plane) <==> NO_VALUE < TotalPages(g)
  {
    Positive(g);
    if NO_VALUE < TotalPages(g) {
      EncodeDecode(g, NO_VALUE);
    } else {
      Quotient(g.pagesPerChannel, NO_VALUE);
      if NO_VALUE / g.pagesPerChannel < g.channels {
        DigitBound(g.pagesPerChannel, g.channels, NO_VALUE / g.pagesPerChannel, NO_VALUE % g.pagesPerChannel);
      }
    }
    hide Consistent;
  }
}
