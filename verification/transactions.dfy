/** The records that the translation layer fills in place: addresses and transactions. */
module Transactions {
  import opened FlashTypes
  import FtlModel

  class PhysicalPageAddress {
    var channelId: nat
    var chipId: nat
    var dieId: nat
    var planeId: nat
    var blockId: nat
    var pageId: nat

    function Plane(): PlaneId
      reads this
    {
      PlaneId(channelId, chipId, dieId, planeId)
    }

    function Value(): PageAddr
      reads this
    {
      PageAddr(Plane(), blockId, pageId)
    }

    constructor ()
      ensures Value() == PageAddr(PlaneId(0, 0, 0, 0), 0, 0)
    {
      channelId, chipId, dieId, planeId, blockId, pageId := 0, 0, 0, 0, 0, 0;
    }

    method SetPlane(p: PlaneId)
      modifies this
      ensures Value() == PageAddr(p, old(blockId), old(pageId))
    {
      channelId, chipId, dieId, planeId := p.channel, p.chip, p.die, p.plane;
    }
  }

  class TransactionRead {
    const streamId: nat
    const lpa: bv64
    const readSectorsBitmap: bv64
    const physicalAddress: PhysicalPageAddress
    var ppa: nat
    var physicalAddressDetermined: bool

    constructor (streamId: nat, lpa: bv64, sectors: bv64, address: PhysicalPageAddress)
      ensures this.streamId == streamId && this.lpa == lpa && readSectorsBitmap == sectors && physicalAddress == address
    {
      this.streamId, this.lpa, readSectorsBitmap, physicalAddress := streamId, lpa, sectors, address;
      ppa, physicalAddressDetermined := 0, false;
    }
  }

  /** `content` is the data to program; `relatedRead` the page a partial overwrite reads first. */
  class TransactionWrite {
    const streamId: nat
    const lpa: bv64
    const writeSectorsBitmap: bv64
    const physicalAddress: PhysicalPageAddress
    ghost const content: FtlModel.Image
    var ppa: nat
    var relatedRead: Option<PageAddr>
    var physicalAddressDetermined: bool

    constructor (streamId: nat, lpa: bv64, sectors: bv64, address: PhysicalPageAddress, ghost content: FtlModel.Image)
      ensures this.streamId == streamId && this.lpa == lpa && writeSectorsBitmap == sectors
              && physicalAddress == address
      ensures this.content == content && relatedRead == None
    {
      this.streamId, this.lpa, writeSectorsBitmap, physicalAddress := streamId, lpa, sectors, address;
      this.content := content;
      ppa, relatedRead, physicalAddressDetermined := 0, None, false;
    }
  }
}
