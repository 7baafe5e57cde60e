/** The mapping domain of each stream: its planes, its locked logical pages, and the cached
    mapping table it shares with others or owns. Together the tables hold the mapping. */
module MappingDomains {
  import opened FlashTypes
  import opened AddressCodec
  import opened Striping
  import opened Bits
  import opened CachedMapping
  import opened FtlModel

  /** A machine word as a number. */
  function Num(w: bv64): nat { w as nat }

  lemma NumIsInjective(x: bv64, y: bv64)
    requires Num(x) == Num(y)
    ensures x == y
  {
    assert (x as nat) as bv64 == x;
  }

  /** A table entry as the mapping has it: NO_VALUE for no page, a bitmap word for a set. */
  ghost predicate Stores(g: Geometry, e: CmtEntry, entry: Entry) {
    && entry.bitmap == Bits.Bits(e.bitmap)
    && e.ppa == match entry.addr case None => NO_VALUE case Some(a) => ToPpa(g, a)
  }

  /** A key is usable in the table exactly when the mapping has it, with the same entry. */
  ghost predicate Agrees(g: Geometry, t: Cmt, u: UniqueKey, table: Table, k: Key) {
    && (UsableKey(t, u) <==> k in table)
    && (k in table && u in t.entries ==> Stores(g, t.entries[u], table[k]))
  }

  class AddressMappingDomain {
    const stream: bv64
    const cmt: CachedMappingTable
    const ids: Domain
    var lockedLpa: set<nat>

    constructor (stream: bv64, cmt: CachedMappingTable, ids: Domain)
      ensures this.stream == stream && this.cmt == cmt && this.ids == ids && lockedLpa == {}
    {
      this.stream, this.cmt, this.ids, lockedLpa := stream, cmt, ids, {};
    }

    /** None when the table has no usable entry, where the code stops. */
    method GetPPA(lpa: bv64, ghost g: Geometry, ghost ds: seq<AddressMappingDomain>, ghost s: nat, ghost table: Table)
      returns (ppa: Option<nat>)
      requires s < |ds| && ds[s] == this && Packable(lpa) && Tabled(g, ds, table)
      modifies cmt
      ensures Tabled(g, ds, table)
      ensures ppa == PpaIn(g, table, Key(s, Num(lpa)))
    {
      hide KeyFor, CachedMappingTable.Valid, CachedMappingTable.Value, Num, Agrees;
      ghost var before := Values(ds);
      EntryFound(g, ds, before, table, s, lpa);
      var fault, p := cmt.RetrievePPA(stream, lpa);
      SameEntriesStillAgree(g, ds, before, Values(ds), table);
      ppa := if fault == None then Some(p) else None;
    }

    /** GetPageStatus. */
    method GetPageStatus(lpa: bv64, ghost g: Geometry, ghost ds: seq<AddressMappingDomain>, ghost s: nat,
                         ghost table: Table)
      returns (bitmap: Option<bv64>)
      requires s < |ds| && ds[s] == this && Packable(lpa) && Tabled(g, ds, table)
      ensures var k := Key(s, Num(lpa));
              if k in table then bitmap.Some? && table[k].bitmap == Bits.Bits(bitmap.value) else bitmap == None
    {
      hide KeyFor, CachedMappingTable.Valid, CachedMappingTable.Value, Num, Agrees;
      EntryFound(g, ds, Values(ds), table, s, lpa);
      var fault, b := cmt.GetBitMap(stream, lpa);
      bitmap := if fault == None then Some(b) else None;
    }

    /** UpdateMappingInfo: the mapping changes for this key and no other, whether or not the
        table is shared. */
    method UpdateMappingInfo(lpa: bv64, ppa: nat, bitmap: bv64, ghost g: Geometry, ghost ds: seq<AddressMappingDomain>,
                             ghost s: nat, ghost table: Table, ghost entry: Entry)
      returns (ok: bool)
      requires s < |ds| && ds[s] == this && Packable(lpa) && Registered(ds) && Tabled(g, ds, table)
      requires entry.bitmap == Bits.Bits(bitmap)
      requires ppa == match entry.addr case None => NO_VALUE case Some(a) => ToPpa(g, a)
      modifies cmt
      ensures ok <==> Key(s, Num(lpa)) in table
      ensures Tabled(g, ds, if ok then table[Key(s, Num(lpa)) := entry] else table)
    {
      hide KeyFor, CachedMappingTable.Valid, CachedMappingTable.Value, Num, Agrees;
      ghost var before := Values(ds);
      EntryFound(g, ds, before, table, s, lpa);
      var fault := cmt.Update(stream, lpa, ppa, bitmap);
      ok := fault == None;
      if ok {
        OneEntryChanged(g, ds, before, Values(ds), table, s, lpa, entry);
      } else {
        SameEntriesStillAgree(g, ds, before, Values(ds), table);
      }
    }
  }

  /** The physical page number the table holds for `k`. */
  ghost function PpaIn(g: Geometry, table: Table, k: Key): Option<nat> {
    if k !in table then None
    else Some(match table[k].addr case None => NO_VALUE case Some(a) => ToPpa(g, a))
  }

  ghost function Tables(ds: seq<AddressMappingDomain>): set<CachedMappingTable> {
    set i | 0 <= i < |ds| :: ds[i].cmt
  }

  ghost function Values(ds: seq<AddressMappingDomain>): (r: seq<Cmt>)
    reads Tables(ds)
    ensures |r| == |ds| && forall i :: 0 <= i < |ds| ==> r[i] == ds[i].cmt.Value()
  {
    seq(|ds|, i requires 0 <= i < |ds| reads Tables(ds) => ds[i].cmt.Value())
  }

  /** Domains are numbered by their streams, and streams fit in the top byte of a key. */
  ghost predicate Registered(ds: seq<AddressMappingDomain>) {
    forall i :: 0 <= i < |ds| ==> Num(ds[i].stream) == i && ds[i].stream < 0x100
  }

  ghost predicate At(g: Geometry, ds: seq<AddressMappingDomain>, ts: seq<Cmt>, table: Table, s: nat, lpa: bv64)
    requires s < |ds| == |ts|
  {
    Packable(lpa) ==> Agrees(g, ts[s], KeyFor(ds[s].stream, lpa), table, Key(s, Num(lpa)))
  }

  ghost predicate AllAgree(g: Geometry, ds: seq<AddressMappingDomain>, ts: seq<Cmt>, table: Table)
    requires |ds| == |ts|
  {
    forall s: nat, lpa: bv64 :: s < |ds| ==> At(g, ds, ts, table, s, lpa)
  }

  /** Together the tables hold exactly the mapping. */
  ghost predicate Tabled(g: Geometry, ds: seq<AddressMappingDomain>, table: Table)
    reads Tables(ds)
  {
    (forall i :: 0 <= i < |ds| ==> ds[i].cmt.Valid()) && AllAgree(g, ds, Values(ds), table)
  }

  lemma EntryFound(g: Geometry, ds: seq<AddressMappingDomain>, ts: seq<Cmt>, table: Table, s: nat, lpa: bv64)
    requires s < |ds| == |ts| && Packable(lpa) && AllAgree(g, ds, ts, table)
    ensures var k, u := Key(s, Num(lpa)), KeyFor(ds[s].stream, lpa);
            && (k in table <==> UsableKey(ts[s], u))
            && (k in table ==> table[k].bitmap == Bits.Bits(ts[s].entries[u].bitmap)
                               && PpaIn(g, table, k) == Some(ts[s].entries[u].ppa))
  {
    hide KeyFor, Num;
    assert At(g, ds, ts, table, s, lpa);
  }

  lemma SameEntriesStillAgree(g: Geometry, ds: seq<AddressMappingDomain>, ts: seq<Cmt>, ts': seq<Cmt>, table: Table)
    requires |ds| == |ts| == |ts'| && AllAgree(g, ds, ts, table)
    requires forall i :: 0 <= i < |ts| ==> ts'[i].entries == ts[i].entries
    ensures AllAgree(g, ds, ts', table)
  {
    hide KeyFor, Num;
    forall s: nat, lpa: bv64 | s < |ds| ensures At(g, ds, ts', table, s, lpa) {
      assert At(g, ds, ts, table, s, lpa);
    }
  }

  /** The entry of one key changes in its table; tables that are not that table stay. */
  lemma OneEntryChanged(g: Geometry, ds: seq<AddressMappingDomain>, ts: seq<Cmt>, ts': seq<Cmt>, table: Table,
                        s: nat, lpa: bv64, entry: Entry)
    requires |ds| == |ts| == |ts'| && AllAgree(g, ds, ts, table) && Registered(ds)
    requires s < |ds| && Packable(lpa)
    requires var u := KeyFor(ds[s].stream, lpa);
             && UsableKey(ts[s], u) && UsableKey(ts'[s], u) && Stores(g, ts'[s].entries[u], entry)
             && forall i :: 0 <= i < |ts| ==>
                  (ts'[i].entries == ts[i].entries && i != s) || ts'[i].entries == ts[i].entries[u := ts'[s].entries[u]]
    ensures AllAgree(g, ds, ts', table[Key(s, Num(lpa)) := entry])
  {
    hide KeyFor, Num, Stores, PpaIn;
    var u, k := KeyFor(ds[s].stream, lpa), Key(s, Num(lpa));
    var table' := table[k := entry];
    forall s': nat, lpa': bv64 | s' < |ds| ensures At(g, ds, ts', table', s', lpa') {
      assert At(g, ds, ts, table, s', lpa');
      if Packable(lpa') {
        DomainKeys(ds, s, lpa, s', lpa');
      }
    }
  }

  lemma DomainKeys(ds: seq<AddressMappingDomain>, s: nat, lpa: bv64, s': nat, lpa': bv64)
    requires Registered(ds) && s < |ds| && s' < |ds| && Packable(lpa) && Packable(lpa')
    ensures KeyFor(ds[s].stream, lpa) == KeyFor(ds[s'].stream, lpa') <==> s == s' && lpa == lpa'
    ensures Key(s, Num(lpa)) == Key(s', Num(lpa')) <==> s == s' && lpa == lpa'
  {
    hide Packable, KeyFor;
    SameKey(ds[s].stream, lpa, ds[s'].stream, lpa');
    if Num(lpa) == Num(lpa') { NumIsInjective(lpa, lpa'); }
    hide Num;
  }
}
