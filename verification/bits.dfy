/** 64-bit words as sets: sector bitmaps, the per-block page bitmap, and the packing of a stream
    and a logical page into one key. */
module Bits {

  /** A bit position as a shift amount. */
  function Index(i: nat): bv6
    requires i < 64
  {
    i as bv6
  }

  predicate Has(w: bv64, k: bv6) { w & (1 << k) != 0 }

  predicate HasBit(w: bv64, i: nat)
    requires i < 64
  {
    Has(w, Index(i))
  }

  function Single(i: nat): bv64
    requires i < 64
  {
    1 << Index(i)
  }

  /** The set a bitmap word stands for. */
  ghost function Bits(w: bv64): set<nat> {
    set i: nat | i < 64 && HasBit(w, i)
  }

  // ----- facts about machine words -----

  lemma AsIndex(i: nat)
    requires i < 64
    ensures Index(i) as nat == i
  {
  }

  lemma IndexIsInjective(i: nat, j: nat)
    requires i < 64 && j < 64
    ensures Index(i) == Index(j) <==> i == j
  {
    AsIndex(i);
    AsIndex(j);
    hide Index;
  }

  lemma IndexAs(k: bv6)
    ensures (k as nat) < 64 && Index(k as nat) == k
  {
  }

  lemma OrHasLeft(a: bv64, b: bv64, k: bv6)
    requires Has(a, k)
    ensures Has(a | b, k)
  {
  }

  lemma OrHasRight(a: bv64, b: bv64, k: bv6)
    requires Has(b, k)
    ensures Has(a | b, k)
  {
  }

  lemma OrLacks(a: bv64, b: bv64, k: bv6)
    requires !Has(a, k) && !Has(b, k)
    ensures !Has(a | b, k)
  {
  }

  lemma AndHas(a: bv64, b: bv64, k: bv6)
    requires Has(a & b, k)
    ensures Has(a, k) && Has(b, k)
  {
  }

  lemma AndHasBoth(a: bv64, b: bv64, k: bv6)
    requires Has(a, k) && Has(b, k)
    ensures Has(a & b, k)
  {
  }

  lemma DifferenceHas(a: bv64, b: bv64, k: bv6)
    requires Has(a & !b, k)
    ensures Has(a, k) && !Has(b, k)
  {
  }

  lemma SingleHas(j: bv6)
    ensures Has(1 << j, j)
  {
  }

  lemma SingleLacks(j: bv6, k: bv6)
    requires j != k
    ensures !Has(1 << j, k)
  {
  }

  lemma Uncovered(a: bv64, b: bv64)
    requires a & b != a
    ensures a & !b != 0
  {
  }

  /** The position of a set bit, found by halving the word. */
  function LowBit(w: bv64): bv6 {
    var a: bv6 := if w & 0xffff_ffff != 0 then 0 else 32;
    var w1 := w >> a;
    var b: bv6 := if w1 & 0xffff != 0 then 0 else 16;
    var w2 := w1 >> b;
    var c: bv6 := if w2 & 0xff != 0 then 0 else 8;
    var w3 := w2 >> c;
    var d: bv6 := if w3 & 0xf != 0 then 0 else 4;
    var w4 := w3 >> d;
    var e: bv6 := if w4 & 0x3 != 0 then 0 else 2;
    var w5 := w4 >> e;
    var f: bv6 := if w5 & 0x1 != 0 then 0 else 1;
    a + b + c + d + e + f
  }

  lemma LowBitIsSet(w: bv64)
    requires w != 0
    ensures Has(w, LowBit(w))
  {
  }

  /** A nonzero word has a bit. */
  lemma SomeBit(w: bv64) returns (i: nat)
    requires w != 0
    ensures i < 64 && HasBit(w, i)
  {
    LowBitIsSet(w);
    IndexAs(LowBit(w));
    i := LowBit(w) as nat;
    hide LowBit, Index, Has;
  }

  // ----- bitmap words -----

  lemma HasBitOr(a: bv64, b: bv64, i: nat)
    requires i < 64
    ensures HasBit(a | b, i) <==> HasBit(a, i) || HasBit(b, i)
  {
    hide Has, Index;
    var k := Index(i);
    if Has(a, k) {
      OrHasLeft(a, b, k);
    } else if Has(b, k) {
      OrHasRight(a, b, k);
    } else {
      OrLacks(a, b, k);
    }
  }

  lemma HasBitAnd(a: bv64, b: bv64, i: nat)
    requires i < 64
    ensures HasBit(a & b, i) <==> HasBit(a, i) && HasBit(b, i)
  {
    hide Has, Index;
    var k := Index(i);
    if Has(a & b, k) {
      AndHas(a, b, k);
    } else if Has(a, k) && Has(b, k) {
      AndHasBoth(a, b, k);
    }
  }

  lemma HasBitSingle(i: nat, j: nat)
    requires i < 64 && j < 64
    ensures HasBit(Single(i), j) <==> i == j
  {
    hide Index, Has;
    IndexIsInjective(i, j);
    if i == j { SingleHas(Index(j)); } else { SingleLacks(Index(i), Index(j)); }
  }

  lemma BitsOfOr(a: bv64, b: bv64)
    ensures Bits(a | b) == Bits(a) + Bits(b)
  {
    hide HasBit;
    forall i: nat | i < 64 { HasBitOr(a, b, i); }
  }

  lemma BitsOfZero()
    ensures Bits(0) == {}
  {
  }

  /** A word that is not covered has a bit of its own. */
  lemma UncoveredBit(prev: bv64, write: bv64) returns (i: nat)
    requires prev & write != prev
    ensures i < 64 && HasBit(prev, i) && !HasBit(write, i)
  {
    hide Has, Index;
    Uncovered(prev, write);
    i := SomeBit(prev & !write);
    DifferenceHas(prev, write, Index(i));
  }

  /** The full-overwrite test of a user write: the intersection equals the earlier bitmap exactly
      when every sector written earlier is written again. */
  lemma OverwriteTest(prev: bv64, write: bv64)
    ensures prev & write == prev <==> Bits(prev) <= Bits(write)
  {
    if prev & write == prev {
      hide HasBit;
      forall i: nat | i < 64 { HasBitAnd(prev, write, i); }
    } else {
      var i := UncoveredBit(prev, write);
      hide HasBit;
      assert i in Bits(prev) && i !in Bits(write);
    }
  }

  // ----- the page bitmap of a block -----

  /** Words needed for the pages of a block. */
  function WordsFor(pages: nat): nat {
    pages / 64 + if pages % 64 != 0 then 1 else 0
  }

  /** IsPageValid. */
  predicate PageValid(words: seq<bv64>, page: nat)
    requires page / 64 < |words|
  {
    !HasBit(words[page / 64], page % 64)
  }

  function SetBit(word: bv64, b: nat): bv64
    requires b < 64
  {
    word | Single(b)
  }

  /** The bitmap update of InvalidatePageInBlock. */
  function SetPage(words: seq<bv64>, page: nat): seq<bv64>
    requires page / 64 < |words|
  {
    words[page / 64 := SetBit(words[page / 64], page % 64)]
  }

  /** The pages a bitmap marks invalid, among the first `pages`. */
  ghost function InvalidPages(words: seq<bv64>, pages: nat): set<nat> {
    set p: nat | p < pages && p / 64 < |words| && !PageValid(words, p)
  }

  /** There is a word for every page of the block, whatever their number. */
  lemma EnoughWords(pages: nat, page: nat)
    requires page < pages
    ensures page / 64 < WordsFor(pages)
  {
  }

  /** Setting one bit of a word changes that bit and no other. */
  lemma SetBitIsExact(word: bv64, b: nat, b': nat)
    requires b < 64 && b' < 64
    ensures HasBit(SetBit(word, b), b') <==> HasBit(word, b') || b' == b
  {
    hide HasBit, Single;
    HasBitOr(word, Single(b), b');
    HasBitSingle(b, b');
  }

  lemma SamePage(page: nat, other: nat)
    ensures page == other <==> page / 64 == other / 64 && page % 64 == other % 64
  {
  }

  /** Marking a page changes the validity of that page and of no other. */
  lemma SetPageIsExact(words: seq<bv64>, page: nat, other: nat)
    requires page / 64 < |words| && other / 64 < |words|
    ensures PageValid(SetPage(words, page), other) <==> PageValid(words, other) && other != page
  {
    hide HasBit, SetBit;
    SamePage(page, other);
    SetBitIsExact(words[page / 64], page % 64, other % 64);
  }

  /** So the word array refines a set of page numbers. */
  lemma SetPageAddsOne(words: seq<bv64>, pages: nat, page: nat)
    requires |words| == WordsFor(pages) && page < pages
    ensures page / 64 < |words|
    ensures InvalidPages(SetPage(words, page), pages) == InvalidPages(words, pages) + {page}
  {
    EnoughWords(pages, page);
    forall p: nat | p < pages
      ensures p / 64 < |words| && (PageValid(SetPage(words, page), p) <==> PageValid(words, p) && p != page)
    {
      EnoughWords(pages, p);
      SetPageIsExact(words, page, p);
    }
    hide PageValid, SetPage;
  }

  lemma ClearedIsEmpty(words: seq<bv64>, pages: nat)
    requires forall i :: 0 <= i < |words| ==> words[i] == 0
    ensures InvalidPages(words, pages) == {}
  {
    forall p: nat | p < pages && p / 64 < |words| ensures PageValid(words, p) {
      BitsOfZero();
    }
  }

  // ----- keys -----

  /** LPN_TO_UNIQUE_KEY. */
  function ToKey(stream: bv64, lpa: bv64): bv64 { (stream << 56) | lpa }

  /** UNIQUE_KEY_TO_LPN. */
  function FromKey(stream: bv64, key: bv64): bv64 { (!(stream << 56)) & key }

  /** Logical pages that fit beside the stream in a packed key. */
  predicate Packable(lpa: bv64) { lpa < 0x100_0000_0000_0000 }

  /** Inside 8 bits of stream and 56 bits of logical page, packing loses nothing. */
  lemma KeysAreUnique(s: bv64, l: bv64, s': bv64, l': bv64)
    requires s < 0x100 && s' < 0x100 && Packable(l) && Packable(l')
    ensures ToKey(s, l) == ToKey(s', l') <==> s == s' && l == l'
  {
  }

  /** For one stream, whatever its number, 56-bit logical pages never share a key. */
  lemma PackedOnce(s: bv64, l: bv64, l': bv64)
    requires Packable(l) && Packable(l')
    ensures ToKey(s, l) == ToKey(s, l') <==> l == l'
  {
  }

  /** The logical page and the shifted stream have a bit in common. */
  predicate Overlap(stream: bv64, lpa: bv64) { (stream << 56) & lpa != 0 }

  lemma UnpackLoses(s: bv64, l: bv64)
    requires Overlap(s, l)
    ensures FromKey(s, ToKey(s, l)) != l
  {
  }

  lemma UnpackKeeps(s: bv64, l: bv64)
    requires !Overlap(s, l)
    ensures FromKey(s, ToKey(s, l)) == l
  {
  }

  /** Unpacking returns the logical page exactly when it shares no bit with the shifted stream. */
  lemma UnpackPack(s: bv64, l: bv64)
    ensures FromKey(s, ToKey(s, l)) == l <==> !Overlap(s, l)
  {
    hide FromKey, ToKey, Overlap;
    if Overlap(s, l) {
      UnpackLoses(s, l);
    } else {
      UnpackKeeps(s, l);
    }
  }

  lemma LowPage(s: bv64, l: bv64)
    requires Packable(l)
    ensures !Overlap(s, l)
  {
  }

  /** In particular for every stream and every 56-bit logical page. */
  lemma UnpackPackInRange(s: bv64, l: bv64)
    requires Packable(l)
    ensures FromKey(s, ToKey(s, l)) == l
  {
    hide FromKey, ToKey, Overlap;
    LowPage(s, l);
    UnpackPack(s, l);
  }

  /** A packed key, as the hash maps and recency lists hold it. */
  datatype UniqueKey = UniqueKey(word: bv64)

  function KeyFor(stream: bv64, lpa: bv64): UniqueKey { UniqueKey(ToKey(stream, lpa)) }

  function LpaOf(stream: bv64, k: UniqueKey): bv64 { FromKey(stream, k.word) }

  /** Packed keys of one stream, or of any 8-bit streams, are as distinct as what they pack. */
  lemma SameKey(s: bv64, l: bv64, s': bv64, l': bv64)
    requires Packable(l) && Packable(l') && (s == s' || (s < 0x100 && s' < 0x100))
    ensures KeyFor(s, l) == KeyFor(s', l') <==> s == s' && l == l'
  {
    hide ToKey, Packable;
    if s == s' { PackedOnce(s, l, l'); } else { KeysAreUnique(s, l, s', l'); }
  }
}
