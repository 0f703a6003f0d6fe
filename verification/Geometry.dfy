/** Where the allocation table and the data sectors lie on a drive. */
module Geometry {

  const RESERVED := 2

  /** A boot sector, the reserved sectors, then one table sector for every 128 data sectors. */
  function TableSize(totalSectors: nat): nat
    requires totalSectors >= RESERVED + 1
  {
    (totalSectors - RESERVED - 1) / 129
  }

  function GetTableSectorId(id: nat): nat { id + 1 + RESERVED }

  function GetRealSectorNumber(id: nat, tableSize: nat): nat { id + 1 + RESERVED + tableSize }

  /** No table sector is a data sector, none is reserved, and every sector with an entry is on the drive. */
  lemma RegionsApart(totalSectors: nat, block: nat, id: nat)
    requires totalSectors >= RESERVED + 1
    requires block < TableSize(totalSectors) && id < TableSize(totalSectors) * 128
    ensures RESERVED < GetTableSectorId(block) < GetRealSectorNumber(id, TableSize(totalSectors)) < totalSectors
    ensures GetTableSectorId(id / 128) < GetRealSectorNumber(0, TableSize(totalSectors))
  {
    assert 129 * TableSize(totalSectors) <= totalSectors - 3;
  }

  /** A table one sector larger would not fit: fewer than 129 sectors are left over. */
  lemma TableIsLargest(totalSectors: nat, size: nat)
    requires totalSectors >= RESERVED + 1
    ensures 1 + RESERVED + size + size * 128 <= totalSectors <==> size <= TableSize(totalSectors)
  {
  }
}
