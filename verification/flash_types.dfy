/** Entities shared by the flash translation layer: physical coordinates, logical keys,
    open-block slots, device configuration and the fatal consistency errors. */
module FlashTypes {

  datatype Option<+T> = None | Some(value: T)

  /** The plane coordinates of a physical address. */
  datatype PlaneId = PlaneId(channel: nat, chip: nat, die: nat, plane: nat)

  /** A physical page: its plane, the block inside the plane, the page inside the block. */
  datatype PageAddr = PageAddr(plane: PlaneId, block: nat, page: nat)

  /** A logical page of one stream. */
  datatype Key = Key(stream: nat, lpa: nat)

  /** Every stream owns three open blocks in every plane. */
  datatype Kind = Data | Gc | Translation

  datatype Slot = Slot(kind: Kind, stream: nat)

  datatype GcPolicy = Greedy | Rga | Random | RandomP | RandomPP | Fifo

  /** Device-wide constants. `home` is the plane a stream stripes a logical page to;
      nothing but its range matters to the state machine. */
  datatype Config = Config(
    pagesPerBlock: nat,
    blocksPerPlane: nat,
    streams: nat,
    dynamicWl: bool,
    policy: GcPolicy,
    gcThreshold: nat,
    maxGc: nat,
    home: (nat, nat) -> PlaneId)

  predicate GoodConfig(c: Config) {
    c.pagesPerBlock >= 1 && c.streams >= 1
  }

  /** The PRINT_ERROR checks that stop the simulator, and the unchecked decoding of NO_VALUE. */
  datatype FtlError =
    | EmptyPool
    | InconsistentCounters
    | OutOfFreePages
    | WrongStream
    | EntryNotValid
    | AddressOutOfDevice
    | BadGcWrite
    | MappingMismatch
    | AlreadyLocked
    | NotLocked

  /** The owner recorded in a block that belongs to no stream. */
  const NO_STREAM: nat := 0xff

  /** Slots are numbered stream by stream. */
  ghost function SlotNumber(x: Slot): nat {
    3 * x.stream + match x.kind case Data => 0 case Gc => 1 case Translation => 2
  }

  ghost function SlotAt(i: nat): Slot {
    Slot(if i % 3 == 0 then Data else if i % 3 == 1 then Gc else Translation, i / 3)
  }

  ghost function FirstSlots(m: nat): (r: set<Slot>)
    ensures forall x: Slot :: x in r <==> SlotNumber(x) < m
    ensures |r| == m
  {
    if m == 0 then {}
    else
      assert forall x: Slot :: SlotNumber(x) == m - 1 <==> x == SlotAt(m - 1);
      FirstSlots(m - 1) + {SlotAt(m - 1)}
  }

  /** The open-block slots of streams 0 .. n-1. */
  ghost function SlotsBelow(n: nat): (r: set<Slot>)
    ensures forall x: Slot :: x in r <==> x.stream < n
  {
    if n == 0 then {}
    else
      assert forall x: Slot :: x == Slot(x.kind, x.stream) && (x.kind.Data? || x.kind.Gc? || x.kind.Translation?);
      SlotsBelow(n - 1) + {Slot(Data, n - 1)} + {Slot(Gc, n - 1)} + {Slot(Translation, n - 1)}
  }

  /** There are three open-block slots per stream. */
  lemma {:induction false} SlotsBelowSize(n: nat)
    ensures |SlotsBelow(n)| == 3 * n
  {
    assert forall x: Slot :: SlotNumber(x) < 3 * n <==> x.stream < n;
    assert SlotsBelow(n) == FirstSlots(3 * n);
  }
}
