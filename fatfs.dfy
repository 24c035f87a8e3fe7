/**
 * PropWare's FAT16/FAT32 filesystem (`FatFS`, fatfs.h): mounting (boot sector
 * and partition table parsing, FAT type determination, layout), the
 * end-of-chain test, reading, allocating, flushing and clearing entries of
 * the file allocation table. Section numbers refer to Microsoft's "FAT32 File
 * System Specification" (fatgen103, version 1.03).
 *
 * The source's `uint32_t` fields are `U32` values here and its 32-bit sums
 * and shifts are written out modulo 2^32. Device addresses are unbounded.
 */
module FatFs {
  import opened Base
  import Sd
  import BlockStorage

  const SECTOR: nat := Sd.SECTOR_SIZE

  /** A FAT16 entry is two bytes wide, a FAT32 entry four. */
  const FAT_16: nat := 2
  const FAT_32: nat := 4

  /** The end-of-chain markers as the source's signed 32-bit constants. */
  const EOC_BEG: int := -8
  const EOC_END: int := -1
  const EOC_MASK: nat := 0x0fff_ffff

  /** The 28 bits of a FAT32 entry that hold a cluster number (section 4). */
  const TWO_28: nat := 0x1000_0000

  /**
   * `Filesystem::FILESYSTEM_ALREADY_MOUNTED` (filesystem.h, which is not part
   * of this model) and the `FatFS` error codes, which follow the
   * `Filesystem` codes; the model relies only on their being distinct and
   * non-zero.
   */
  const FILESYSTEM_ALREADY_MOUNTED: ErrorCode := 1
  const EMPTY_FAT_ENTRY: ErrorCode := 10
  const INVALID_FAT_APPEND: ErrorCode := 11
  const TOO_MANY_FATS: ErrorCode := 12
  const BAD_SECTORS_PER_CLUSTER: ErrorCode := 13
  const READING_PAST_EOC: ErrorCode := 14
  const PARTITION_DOES_NOT_EXIST: ErrorCode := 15
  const UNSUPPORTED_FILESYSTEM: ErrorCode := 16

  // Boot sector and partition table addresses (sections 3.1 to 3.3).
  const BOOT_SECTOR_ID: Byte := 0xEB
  const BOOT_SECTOR_ID_ADDR: nat := 0
  const PARTITION_TABLE_START: nat := 0x1BE
  const PARTITION_ID_OFFSET: nat := 0x04
  const PARTITION_START_OFFSET: nat := 0x08
  const RSVD_SCTR_CNT_ADDR: nat := 0x0E
  const NUM_FATS_ADDR: nat := 0x10
  const ROOT_ENTRY_CNT_ADDR: nat := 0x11
  const LABEL_ADDR: nat := 0x47
  const SEC_PER_CLSTR_ADDR: nat := 0x0D
  const TOT_SCTR_16_ADDR: nat := 0x13
  const FAT_SIZE_16_ADDR: nat := 0x16
  const TOT_SCTR_32_ADDR: nat := 0x20
  const FAT_SIZE_32_ADDR: nat := 0x24
  const ROOT_CLUSTER_ADDR: nat := 0x2C
  /** The name `mount` gives the current directory's metadata record. */
  const NAME_CWD: string := "Current working directory"

  /** The cluster counts of the "FAT Type Determination" section: below 4085 is FAT12, below 65525 FAT16. */
  const FAT12_CLSTR_CNT: nat := 4085
  const FAT16_CLSTR_CNT: nat := TWO_16 - 1 - 10

  /** The partition type bytes `is_fat_volume` accepts. */
  const PARTITION_IDS: seq<Byte> := [
    0x01, 0x04, 0x06, 0x07, 0x08, 0x0B, 0x0C, 0x0E, 0x11, 0x12, 0x14,
    0x16, 0x17, 0x1B, 0x1C, 0x1E, 0x24, 0x27, 0x28, 0x56, 0x84, 0x86,
    0x8B, 0x8D, 0x90, 0x92, 0x97, 0x98, 0x9A, 0xAA, 0xB6, 0xBB, 0xBC,
    0xC0, 0xC1, 0xC6, 0xC8, 0xC9, 0xCA, 0xCB, 0xCC, 0xCE, 0xD0, 0xD1,
    0xD4, 0xD6, 0xDB, 0xDE, 0xE1, 0xE4, 0xE5, 0xEF, 0xF2, 0xFE]

  /** A parser's answer: an error code, or the value it parsed. */
  datatype Outcome<T> = Fail(err: ErrorCode) | Ok(value: T)

  // ------------------------------------------------------------ partitions

  /** `is_fat_volume`: a linear search of the id table. */
  method IsFatVolume(partitionId: Byte) returns (err: ErrorCode)
    ensures err == NO_ERROR <==> partitionId in PARTITION_IDS
    ensures err != NO_ERROR ==> err == UNSUPPORTED_FILESYSTEM
  {
    for i := 0 to |PARTITION_IDS|
      invariant partitionId !in PARTITION_IDS[..i]
    {
      if PARTITION_IDS[i] == partitionId {
        return NO_ERROR;
      }
    }
    assert PARTITION_IDS[..|PARTITION_IDS|] == PARTITION_IDS;
    return UNSUPPORTED_FILESYSTEM;
  }

  /** Where partition `p`'s row of the partition table starts. */
  function PartitionRow(p: nat): (row: nat)
    requires p <= 3
    ensures row + PARTITION_START_OFFSET + 3 < SECTOR
  {
    PARTITION_TABLE_START + p * 16
  }

  /**
   * The boot sector `read_boot_sector` finds in sector 0: a sector starting
   * with 0xEB is itself the boot sector, of the only partition, 0; otherwise
   * it is a master boot record whose row for the partition must carry a FAT
   * type byte and gives the boot sector's address.
   */
  function BootSectorOf(sector0: seq<Byte>, partition: nat): (r: Outcome<U32>)
    requires |sector0| == SECTOR && partition <= 3
    ensures sector0[BOOT_SECTOR_ID_ADDR] == BOOT_SECTOR_ID ==>
      (r.Ok? <==> partition == 0) && (r.Ok? ==> r.value == 0) && (r.Fail? ==> r.err == PARTITION_DOES_NOT_EXIST)
    ensures sector0[BOOT_SECTOR_ID_ADDR] != BOOT_SECTOR_ID ==>
      (r.Ok? <==> sector0[PartitionRow(partition) + PARTITION_ID_OFFSET] in PARTITION_IDS) &&
      (r.Fail? ==> r.err == UNSUPPORTED_FILESYSTEM)
    ensures r.Ok? && partition != 0 ==> r.value == Sd.GetLong(sector0, PartitionRow(partition) + PARTITION_START_OFFSET)
  {
    if sector0[BOOT_SECTOR_ID_ADDR] == BOOT_SECTOR_ID then
      if partition == 0 then Ok(0) else Fail(PARTITION_DOES_NOT_EXIST)
    else
      var row := PartitionRow(partition);
      if sector0[row + PARTITION_ID_OFFSET] in PARTITION_IDS then Ok(Sd.GetLong(sector0, row + PARTITION_START_OFFSET))
      else Fail(UNSUPPORTED_FILESYSTEM)
  }

  // ----------------------------------------------------------- boot sector

  /** The numbers `common_boot_sector_parser` takes from the boot sector. */
  datatype BootInfo = BootInfo(rootEntryCount: nat, rootDirSectors: nat, rsvdSectorCount: nat, numFATs: nat,
                               volumeLabel: seq<Byte>, clusterShift: nat)

  /** The shift `common_boot_sector_parser` stores for a sectors-per-cluster byte: `k` for `2^k`, `k < 8`. */
  function ClusterShift(sectorsPerCluster: Byte): (r: Outcome<nat>)
    ensures r.Ok? ==> r.value < 8 && Pow2(r.value) == sectorsPerCluster
    ensures r.Fail? ==> r.err == BAD_SECTORS_PER_CLUSTER
  {
    if sectorsPerCluster == 1 then Ok(0)
    else if sectorsPerCluster == 2 then Ok(1)
    else if sectorsPerCluster == 4 then Ok(2)
    else if sectorsPerCluster == 8 then Ok(3)
    else if sectorsPerCluster == 16 then Ok(4)
    else if sectorsPerCluster == 32 then Ok(5)
    else if sectorsPerCluster == 64 then Ok(6)
    else if sectorsPerCluster == 128 then Ok(7)
    else Fail(BAD_SECTORS_PER_CLUSTER)
  }

  /** Every power of two up to 128 is accepted (section 3.1 allows exactly these), so the shift is the byte's logarithm. */
  lemma ClusterShiftOfPowers(k: nat)
    requires k < 8
    ensures Pow2(k) < TWO_8 && ClusterShift(Pow2(k)) == Ok(k)
  {
    assert Pow2(1) == 2 && Pow2(2) == 4 && Pow2(3) == 8 && Pow2(4) == 16;
    assert Pow2(5) == 32 && Pow2(6) == 64 && Pow2(7) == 128;
  }

  /** The sectors `count` root directory entries of 32 bytes take, rounded up (section 6 of fatgen103). */
  function RootDirSectors(count: nat): (n: nat)
    ensures n * SECTOR >= count * 32 && (n == 0 || (n - 1) * SECTOR < count * 32)
  {
    (count * 32 + SECTOR - 1) / SECTOR
  }

  /**
   * `common_boot_sector_parser`: the root entry count, the reserved sector
   * count, the label, and the sectors-per-cluster shift; any number of FATs
   * but 2 answers `TOO_MANY_FATS`, a sectors-per-cluster that is not a power
   * of two up to 128 `BAD_SECTORS_PER_CLUSTER`.
   */
  function CommonBootSectorParser(buf: seq<Byte>): (r: Outcome<BootInfo>)
    requires |buf| == SECTOR
    ensures r.Ok? <==> buf[NUM_FATS_ADDR] == 2 && ClusterShift(buf[SEC_PER_CLSTR_ADDR]).Ok?
    ensures buf[NUM_FATS_ADDR] != 2 ==> r == Fail(TOO_MANY_FATS)
    ensures buf[NUM_FATS_ADDR] == 2 && r.Fail? ==> r.err == BAD_SECTORS_PER_CLUSTER
    ensures r.Ok? ==> r.value.numFATs == 2 && Pow2(r.value.clusterShift) == buf[SEC_PER_CLSTR_ADDR]
    ensures r.Ok? ==> r.value.rootEntryCount == Sd.GetShort(buf, ROOT_ENTRY_CNT_ADDR)
    ensures r.Ok? ==> r.value.rootDirSectors == RootDirSectors(r.value.rootEntryCount)
    ensures r.Ok? ==> r.value.rsvdSectorCount == Sd.GetShort(buf, RSVD_SCTR_CNT_ADDR)
    ensures r.Ok? ==> r.value.volumeLabel == buf[LABEL_ADDR..LABEL_ADDR + 8]
  {
    var rootEntryCount := Sd.GetShort(buf, ROOT_ENTRY_CNT_ADDR);
    var rootDirSectors := (rootEntryCount * 32 + SECTOR - 1) / Pow2(Sd.SECTOR_SIZE_SHIFT);
    var numFATs := buf[NUM_FATS_ADDR];
    if 2 != numFATs then Fail(TOO_MANY_FATS)
    else
      var shift := ClusterShift(buf[SEC_PER_CLSTR_ADDR]);
      if shift.Fail? then Fail(shift.err)
      else
        Ok(BootInfo(rootEntryCount, rootDirSectors, Sd.GetShort(buf, RSVD_SCTR_CNT_ADDR), numFATs,
                    buf[LABEL_ADDR..LABEL_ADDR + 8], shift.value))
  }

  /** The numbers `partition_info_parser` derives. */
  datatype PartitionInfo = PartitionInfo(fatSize: U32, totalSectors: U32, dataSectors: U32, clusterCount: U32,
                                         rootDirSectors: nat)

  /** A 16-bit field, or the 32-bit field when the 16-bit one is 0 (section 3.1). */
  function Field16Or32(buf: seq<Byte>, at16: nat, at32: nat): (v: U32)
    requires at16 + 1 < |buf| && at32 + 3 < |buf|
    ensures Sd.GetShort(buf, at16) != 0 ==> v == Sd.GetShort(buf, at16)
    ensures Sd.GetShort(buf, at16) == 0 ==> v == Sd.GetLong(buf, at32)
  {
    var v := Sd.GetShort(buf, at16);
    if v == 0 then Sd.GetLong(buf, at32) else v
  }

  /**
   * `partition_info_parser`: the FAT size and the total sector count, the
   * data sectors that remain after the reserved sectors, the FATs and the
   * root directory (as an unsigned 32-bit difference), the clusters they
   * make, and the root directory's size as the FAT16 layout uses it.
   */
  function PartitionInfoParser(buf: seq<Byte>, info: BootInfo): (r: PartitionInfo)
    requires |buf| == SECTOR && info.clusterShift < 8
    ensures r.fatSize == Field16Or32(buf, FAT_SIZE_16_ADDR, FAT_SIZE_32_ADDR)
    ensures r.totalSectors == Field16Or32(buf, TOT_SCTR_16_ADDR, TOT_SCTR_32_ADDR)
    ensures r.dataSectors == DataSectors(r.totalSectors, info.rsvdSectorCount, info.numFATs, r.fatSize, info.rootDirSectors)
  {
    var fatSize := Field16Or32(buf, FAT_SIZE_16_ADDR, FAT_SIZE_32_ADDR);
    var totalSectors := Field16Or32(buf, TOT_SCTR_16_ADDR, TOT_SCTR_32_ADDR);
    var dataSectors := DataSectors(totalSectors, info.rsvdSectorCount, info.numFATs, fatSize, info.rootDirSectors);
    PartitionInfo(fatSize, totalSectors, dataSectors, ShiftRight(dataSectors, info.clusterShift),
                  (info.rootEntryCount * 32) / Pow2(Sd.SECTOR_SIZE_SHIFT))
  }

  /**
   * The cluster count is the data sectors in whole clusters, and the FAT16
   * root directory size the root entries in whole sectors, both rounded down.
   */
  lemma PartitionCounts(buf: seq<Byte>, info: BootInfo)
    requires |buf| == SECTOR && info.clusterShift < 8
    ensures PartitionInfoParser(buf, info).clusterCount * Pow2(info.clusterShift) <= PartitionInfoParser(buf, info).dataSectors
    ensures PartitionInfoParser(buf, info).dataSectors < (PartitionInfoParser(buf, info).clusterCount + 1) * Pow2(info.clusterShift)
    ensures PartitionInfoParser(buf, info).rootDirSectors * SECTOR <= info.rootEntryCount * 32
    ensures info.rootEntryCount * 32 < (PartitionInfoParser(buf, info).rootDirSectors + 1) * SECTOR
  {
    var r := PartitionInfoParser(buf, info);
    ShiftRightBounds(r.dataSectors, info.clusterShift);
    assert Pow2(Sd.SECTOR_SIZE_SHIFT) == SECTOR by {
      Sd.SectorSizeIsShift();
    }
    DivBounds(info.rootEntryCount * 32, SECTOR);
  }

  /**
   * `totalSectors - (reserved + numFATs * fatSize + rootDirSectors)` in
   * unsigned 32-bit arithmetic: the exact difference when the sectors before
   * the data fit the volume.
   */
  function DataSectors(totalSectors: U32, reserved: nat, numFATs: nat, fatSize: U32, rootDirSectors: nat): (r: U32)
    ensures reserved + numFATs * fatSize + rootDirSectors <= totalSectors ==>
      r == totalSectors - (reserved + numFATs * fatSize + rootDirSectors)
  {
    USub(totalSectors, (reserved + Mul32(numFATs, fatSize) + rootDirSectors) % TWO_32)
  }

  /** `x >> n` on a `uint32_t`: `n` halvings, each dropping the lowest bit. */
  function ShiftRight(x: U32, n: nat): (r: U32)
    ensures r <= x
  {
    if n == 0 then x else ShiftRight(x / 2, n - 1)
  }

  /** `x >> n` is `x` divided by `2^n`, rounded down. */
  lemma {:induction false} ShiftRightBounds(x: U32, n: nat)
    ensures ShiftRight(x, n) * Pow2(n) <= x < (ShiftRight(x, n) + 1) * Pow2(n)
  {
    if n > 0 {
      var y := x / 2;
      var q := ShiftRight(y, n - 1);
      var d := Pow2(n - 1);
      ShiftRightBounds(y, n - 1);
      HalvingBounds(x, q, d);
    }
  }

  /** Bounds on half of `x` in multiples of `d` double to bounds on `x` in multiples of `2 * d`. */
  lemma HalvingBounds(x: nat, q: nat, d: nat)
    requires q * d <= x / 2 < (q + 1) * d
    ensures q * (2 * d) <= x < (q + 1) * (2 * d)
  {
    var y := x / 2;
    assert x == 2 * y + x % 2;
    assert q * (2 * d) == 2 * (q * d);
    assert (q + 1) * (2 * d) == 2 * ((q + 1) * d);
  }

  /** A product of `uint32_t`s, which wraps modulo 2^32. */
  function Mul32(a: nat, b: nat): (r: U32)
    ensures a * b < TWO_32 ==> r == a * b
  {
    (a * b) % TWO_32
  }

  /** Sums of 32-bit values that do not wrap are the plain sums. */
  lemma FatsEnd(fatStart: nat, fatSize: nat, numFATs: nat, extra: nat)
    ensures fatStart + fatSize * numFATs + extra < TWO_32 ==>
      (fatStart + Mul32(fatSize, numFATs)) % TWO_32 == fatStart + fatSize * numFATs &&
      ((fatStart + Mul32(fatSize, numFATs)) % TWO_32 + extra) % TWO_32 == fatStart + fatSize * numFATs + extra
  {
    var m := fatSize * numFATs;
    if fatStart + m + extra < TWO_32 {
      assert m < TWO_32;
      assert Mul32(fatSize, numFATs) == m;
    }
  }

  /** Integer division rounds down. */
  lemma DivBounds(x: nat, d: nat)
    requires 0 < d
    ensures (x / d) * d <= x < (x / d + 1) * d
  {
  }

  /**
   * The root directory size the FAT16 layout adds (rounded down) is the one
   * the data-sector count subtracts (rounded up) exactly when the root
   * directory fills whole sectors, which section 3.1 requires of FAT16
   * volumes.
   */
  lemma RootDirRounding(count: nat)
    ensures (count * 32) / SECTOR == RootDirSectors(count) <==> (count * 32) % SECTOR == 0
  {
  }

  /** The FAT type and how many entries a FAT sector holds (as a shift). */
  datatype FatType = FatType(fsType: nat, entriesShift: nat)

  /** The two layouts of a FAT sector: 256 entries of two bytes, or 128 of four. */
  predicate EntryLayout(fsType: nat, entriesShift: nat)
  {
    (fsType == FAT_16 && entriesShift == 8) || (fsType == FAT_32 && entriesShift == 7)
  }

  /**
   * `determine_fat_type`, as the "FAT Type Determination" section of fatgen103
   * decides it from the cluster count: FAT12 is not supported, FAT16 below
   * 65525 clusters, FAT32 from there on.
   */
  function DetermineFatType(clusterCount: nat): (r: Outcome<FatType>)
    ensures r.Fail? <==> clusterCount < FAT12_CLSTR_CNT
    ensures r.Fail? ==> r.err == UNSUPPORTED_FILESYSTEM
    ensures r.Ok? ==> EntryLayout(r.value.fsType, r.value.entriesShift)
    ensures r.Ok? ==> (r.value.fsType == FAT_16 <==> clusterCount < 65525)
    ensures r.Ok? ==> Pow2(r.value.entriesShift) * r.value.fsType == SECTOR
  {
    assert Pow2(7) == 128 && Pow2(8) == 256;
    if FAT12_CLSTR_CNT > clusterCount then Fail(UNSUPPORTED_FILESYSTEM)
    else if FAT16_CLSTR_CNT > clusterCount then Ok(FatType(FAT_16, 8))
    else Ok(FatType(FAT_32, 7))
  }

  // ---------------------------------------------------------------- layout

  /**
   * `compute_tier1_from_tier2`: the first sector of cluster `tier2`, as
   * unsigned 32-bit arithmetic: `((tier2 - 2) << shift) + firstDataAddr`.
   */
  function ComputeTier1FromTier2(tier2: U32, clusterShift: nat, firstDataAddr: U32): (r: U32)
  {
    ((USub(tier2, 2) * Pow2(clusterShift)) % TWO_32 + firstDataAddr) % TWO_32
  }

  /**
   * Section 6.7 of fatgen103: where nothing wraps, cluster N starts
   * `(N - 2) * sectorsPerCluster` sectors after the first data sector, so
   * consecutive clusters lie one cluster's sectors apart.
   */
  lemma ClusterSector(tier2: U32, clusterShift: nat, firstDataAddr: U32)
    requires 2 <= tier2 && firstDataAddr + (tier2 - 2) * Pow2(clusterShift) < TWO_32
    ensures ComputeTier1FromTier2(tier2, clusterShift, firstDataAddr) == firstDataAddr + (tier2 - 2) * Pow2(clusterShift)
  {
    assert USub(tier2, 2) == tier2 - 2;
    NoWrap((tier2 - 2) * Pow2(clusterShift), firstDataAddr);
  }

  /** A sum below 2^32 does not wrap, even with its first term reduced first. */
  lemma NoWrap(m: nat, a: nat)
    requires m + a < TWO_32
    ensures (m % TWO_32 + a) % TWO_32 == m + a
  {
  }

  /** Where the FATs, the data and the root directory begin. */
  datatype Layout = Layout(fatStart: U32, firstDataAddr: U32, rootAddr: U32, rootCluster: U32)

  /**
   * `store_root_info`: the first FAT follows the reserved sectors; the data
   * follows the FATs; on FAT16 the root directory sits between the FATs and
   * the data, on FAT32 it is the cluster the boot sector names. The FAT16
   * layout has no root cluster; `rootCluster` is then 0 and not stored.
   */
  function StoreRootInfo(buf: seq<Byte>, bootSector: U32, info: BootInfo, part: PartitionInfo, fsType: nat): (r: Layout)
    requires |buf| == SECTOR && info.rsvdSectorCount < TWO_16 && info.numFATs < TWO_8
    ensures r.fatStart == (bootSector + info.rsvdSectorCount) % TWO_32
    ensures fsType == FAT_16 && r.fatStart + part.fatSize * info.numFATs + part.rootDirSectors < TWO_32 ==>
      r.rootAddr == r.fatStart + part.fatSize * info.numFATs && r.firstDataAddr == r.rootAddr + part.rootDirSectors
    ensures fsType == FAT_32 && r.fatStart + part.fatSize * info.numFATs < TWO_32 ==>
      r.firstDataAddr == r.fatStart + part.fatSize * info.numFATs
    ensures fsType == FAT_32 ==> r.rootCluster == Sd.GetLong(buf, ROOT_CLUSTER_ADDR)
    ensures fsType == FAT_32 ==> r.rootAddr == ComputeTier1FromTier2(r.rootCluster, info.clusterShift, r.firstDataAddr)
  {
    var fatStart := (bootSector + info.rsvdSectorCount) % TWO_32;
    var dataAfterFats := (fatStart + Mul32(part.fatSize, info.numFATs)) % TWO_32;
    FatsEnd(fatStart, part.fatSize, info.numFATs, part.rootDirSectors);
    if fsType == FAT_16 then
      Layout(fatStart, (dataAfterFats + part.rootDirSectors) % TWO_32, dataAfterFats, 0)
    else if fsType == FAT_32 then
      var rootCluster := Sd.GetLong(buf, ROOT_CLUSTER_ADDR);
      Layout(fatStart, dataAfterFats, ComputeTier1FromTier2(rootCluster, info.clusterShift, dataAfterFats), rootCluster)
    else Layout(fatStart, dataAfterFats, 0, 0)
  }

  /** Everything mounting learns from a boot sector. */
  datatype Geometry = Geometry(info: BootInfo, part: PartitionInfo, fatType: FatType, layout: Layout)

  /**
   * The boot sector parsed the way `mount` runs the parsers: the common
   * fields (which can fail), the partition numbers, the FAT type (which can
   * fail) and the layout.
   */
  function Parse(buf: seq<Byte>, bootSector: U32): (r: Outcome<Geometry>)
    requires |buf| == SECTOR
    ensures CommonBootSectorParser(buf).Fail? ==> r == Fail(CommonBootSectorParser(buf).err)
    ensures r.Ok? ==> CommonBootSectorParser(buf) == Ok(r.value.info)
    ensures r.Ok? ==> r.value.part == PartitionInfoParser(buf, r.value.info)
    ensures r.Ok? ==> DetermineFatType(r.value.part.clusterCount) == Ok(r.value.fatType)
    ensures r.Ok? ==> r.value.layout == StoreRootInfo(buf, bootSector, r.value.info, r.value.part, r.value.fatType.fsType)
    ensures CommonBootSectorParser(buf).Ok? ==>
      (r.Fail? <==> PartitionInfoParser(buf, CommonBootSectorParser(buf).value).clusterCount < FAT12_CLSTR_CNT)
  {
    var info := CommonBootSectorParser(buf);
    if info.Fail? then Fail(info.err)
    else
      var part := PartitionInfoParser(buf, info.value);
      var fatType := DetermineFatType(part.clusterCount);
      if fatType.Fail? then Fail(fatType.err)
      else Ok(Geometry(info.value, part, fatType.value, StoreRootInfo(buf, bootSector, info.value, part, fatType.value.fsType)))
  }

  // ------------------------------------------------------------ FAT entries

  /**
   * `is_eoc` as written. FAT16 compares the value with -1, which a 16-bit
   * entry never is; FAT32 sets the top four bits and then tests
   * `EOC_BEG <= value && EOC_END <= value`, which only -1 passes.
   */
  function IsEocAsWritten(fsType: nat, value: U32): (r: bool)
    ensures fsType == FAT_16 ==> (r <==> value == TWO_32 - 1)
    ensures fsType == FAT_32 ==> (r <==> value % TWO_28 == EOC_MASK)
    ensures fsType != FAT_16 && fsType != FAT_32 ==> !r
  {
    if fsType == FAT_16 then EOC_END == Int32(value)
    else if fsType == FAT_32 then
      // `value |= 0xf0000000`
      var v := Int32(value % TWO_28 + 0xF000_0000);
      EOC_BEG <= v && EOC_END <= v
    else false
  }

  /** `(int32_t)` of an unsigned 32-bit value. */
  function Int32(x: U32): int
  {
    if x < 0x8000_0000 then x else x - TWO_32
  }

  /**
   * The end-of-chain test of section 4 of fatgen103: a FAT16 entry from
   * 0xFFF8 to 0xFFFF, a FAT32 entry whose low 28 bits are from 0x0FFFFFF8 to
   * 0x0FFFFFFF.
   */
  function IsEoc(fsType: nat, value: U32): bool
  {
    if fsType == FAT_16 then 0xFFF8 <= value % TWO_16
    else if fsType == FAT_32 then 0x0FFF_FFF8 <= value % TWO_28
    else false
  }

  /**
   * The end-of-chain test accepts all eight end markers of each type and
   * never a free entry; everything `is_eoc` accepts as written it accepts too.
   */
  lemma EocMarkers(fsType: nat, value: U32, k: nat)
    requires k < 8
    ensures IsEoc(FAT_16, 0xFFF8 + k) && IsEoc(FAT_32, 0x0FFF_FFF8 + k) && IsEoc(FAT_32, 0xFFFF_FFF8 + k)
    ensures !IsEoc(fsType, 0)
    ensures IsEocAsWritten(fsType, value) ==> IsEoc(fsType, value)
  {
  }

  /** As written, FAT16's own end marker 0xFFFF, as `get_fat_value` reads it, is not an end of chain. */
  lemma EocFat16Missed()
    ensures IsEoc(FAT_16, 0xFFFF) && !IsEocAsWritten(FAT_16, 0xFFFF)
  {
  }

  /** As written, the FAT32 end marker 0x0FFFFFF8 is not an end of chain; only 0x?FFFFFFF is. */
  lemma EocFat32Missed()
    ensures IsEoc(FAT_32, 0x0FFF_FFF8) && !IsEocAsWritten(FAT_32, 0x0FFF_FFF8)
  {
  }

  /**
   * `get_fat_sector_offset`: the byte offset of cluster `tier2`'s entry in
   * its FAT sector.
   */
  function GetFatSectorOffset(tier2: U32, fsType: nat, entriesShift: nat): (r: nat)
    requires EntryLayout(fsType, entriesShift)
    ensures r + fsType <= SECTOR && r % fsType == 0
    ensures r / fsType == tier2 % Pow2(entriesShift)
  {
    assert Pow2(7) == 128 && Pow2(8) == 256;
    (tier2 % Pow2(entriesShift)) * fsType
  }

  /** Entry `index` lies within a sector: 256 entries of two bytes on FAT16, 128 of four bytes on FAT32. */
  predicate InSector(fsType: nat, index: nat)
  {
    (fsType == FAT_16 && index < 256) || (fsType == FAT_32 && index < 128)
  }

  /**
   * The value of entry `index` of a FAT sector as `get_fat_value` reads it:
   * two bytes on FAT16, four bytes with the top four bits cleared on FAT32.
   */
  function EntryOf(sector: seq<Byte>, fsType: nat, index: nat): (r: U32)
    requires |sector| == SECTOR && InSector(fsType, index)
    ensures fsType == FAT_16 ==> r < TWO_16
    ensures fsType == FAT_32 ==> r <= EOC_MASK
  {
    if fsType == FAT_16 then Sd.GetShort(sector, index * 2)
    else Sd.GetLong(sector, index * 4) % TWO_28
  }

  /** A FAT sector with entry `index` set to `value`, as `write_short` or `write_long` stores it. */
  function EntryWritten(sector: seq<Byte>, fsType: nat, index: nat, value: U32): (r: seq<Byte>)
    requires |sector| == SECTOR && InSector(fsType, index)
    ensures |r| == SECTOR
    ensures fsType == FAT_16 ==> forall i :: 0 <= i < SECTOR && (i < index * 2 || index * 2 + 2 <= i) ==> r[i] == sector[i]
    ensures fsType == FAT_32 ==> forall i :: 0 <= i < SECTOR && (i < index * 4 || index * 4 + 4 <= i) ==> r[i] == sector[i]
  {
    if fsType == FAT_16 then Sd.ShortWritten(sector, index * 2, value % TWO_16)
    else Sd.LongWritten(sector, index * 4, value)
  }

  /** An entry reads back what was written to it, as far as the entry's width keeps; the other entries keep their values. */
  lemma EntryWriteRead(sector: seq<Byte>, fsType: nat, index: nat, value: U32, other: nat)
    requires |sector| == SECTOR && InSector(fsType, index) && InSector(fsType, other)
    ensures EntryOf(EntryWritten(sector, fsType, index, value), fsType, index) ==
      if fsType == FAT_16 then value % TWO_16 else value % TWO_28
    ensures other != index ==>
      EntryOf(EntryWritten(sector, fsType, index, value), fsType, other) == EntryOf(sector, fsType, other)
  {
    var r := EntryWritten(sector, fsType, index, value);
    if other != index {
      if fsType == FAT_16 {
        assert r[other * 2] == sector[other * 2] && r[other * 2 + 1] == sector[other * 2 + 1];
      } else {
        assert r[other * 4] == sector[other * 4] && r[other * 4 + 1] == sector[other * 4 + 1];
        assert r[other * 4 + 2] == sector[other * 4 + 2] && r[other * 4 + 3] == sector[other * 4 + 3];
      }
    }
  }

  // --------------------------------------------------------- the FAT cache

  /** Where the mounted FAT lies and how its entries are laid out. */
  datatype FatPlace = FatPlace(fatStart: U32, fatSize: U32, fsType: nat, entriesShift: nat)

  /**
   * The FAT as `FatFS` holds it: the device's blocks and the errors its block
   * reads and writes answer, the FAT sector loaded into the FAT buffer, the
   * buffer, and whether the buffer was modified since it was stored.
   */
  datatype FatCache = FatCache(disk: map<nat, seq<Byte>>, readFault: ErrorCode, writeFault: ErrorCode,
                               cur: U32, buf: seq<Byte>, mod: bool)

  /** What an operation on the cache answers, and the cache it leaves. */
  datatype Done = Done(err: ErrorCode, cache: FatCache)

  predicate PlaceOk(p: FatPlace)
  {
    EntryLayout(p.fsType, p.entriesShift)
  }

  predicate DiskOk(disk: map<nat, seq<Byte>>)
  {
    forall a :: a in disk ==> |disk[a]| == SECTOR
  }

  predicate CacheOk(c: FatCache)
  {
    |c.buf| == SECTOR && DiskOk(c.disk)
  }

  /** Block `a` of the device; a block never written reads as zeros. */
  function DiskBlock(disk: map<nat, seq<Byte>>, a: nat): (r: seq<Byte>)
    requires DiskOk(disk)
    ensures |r| == SECTOR
  {
    if a in disk then disk[a] else seq(SECTOR, _ => 0)
  }

  /** The entries a FAT sector holds, `1 << entriesShift`. */
  function PerSector(p: FatPlace): (k: nat)
    requires PlaceOk(p)
    ensures (k == 256 && p.fsType == FAT_16) || (k == 128 && p.fsType == FAT_32)
  {
    if p.entriesShift == 8 then 256 else 128
  }

  /** The entries of a FAT sector are `1 << entriesShift`. */
  lemma PerSectorIsShift(p: FatPlace)
    requires PlaceOk(p)
    ensures PerSector(p) == Pow2(p.entriesShift)
  {
    assert Pow2(7) == 128 && Pow2(8) == 256;
  }

  /**
   * `flush_fat`: a modified buffer is written to its sector of the first FAT
   * and to the same sector of the second FAT, `fatSize` sectors on; a failed
   * write answers its error and leaves the buffer marked modified.
   */
  function FlushOf(p: FatPlace, c: FatCache): (r: Done)
    requires CacheOk(c)
    ensures CacheOk(r.cache) && r.cache.cur == c.cur && r.cache.buf == c.buf
    ensures r.cache.readFault == c.readFault && r.cache.writeFault == c.writeFault
    ensures !c.mod ==> r == Done(NO_ERROR, c)
    ensures c.mod && c.writeFault != NO_ERROR ==> r == Done(c.writeFault, c)
    ensures c.mod && c.writeFault == NO_ERROR ==> r.err == NO_ERROR && !r.cache.mod
    ensures c.mod && c.writeFault == NO_ERROR ==> DiskBlock(r.cache.disk, p.fatStart + c.cur) == c.buf
    ensures c.mod && c.writeFault == NO_ERROR ==> DiskBlock(r.cache.disk, p.fatStart + c.cur + p.fatSize) == c.buf
    ensures forall a :: a != p.fatStart + c.cur && a != p.fatStart + c.cur + p.fatSize ==>
      DiskBlock(r.cache.disk, a) == DiskBlock(c.disk, a)
  {
    if !c.mod then Done(NO_ERROR, c)
    else if c.writeFault != NO_ERROR then Done(c.writeFault, c)
    else
      var a := p.fatStart + c.cur;
      Done(NO_ERROR, c.(disk := c.disk[a := c.buf][a + p.fatSize := c.buf], mod := false))
  }

  /**
   * Loading FAT sector `s` the way `get_fat_value` and `extend_fat` do: the
   * buffer is flushed (an error of the flush is ignored), the sector becomes
   * the current one, then it is read; a failed read answers its error and
   * leaves the old contents in the buffer.
   */
  function ReloadOf(p: FatPlace, c: FatCache, s: U32): (r: Done)
    requires CacheOk(c)
    ensures CacheOk(r.cache) && r.cache.cur == s && r.err == c.readFault
    ensures r.err == NO_ERROR ==> r.cache.buf == DiskBlock(r.cache.disk, p.fatStart + s)
  {
    var f := FlushOf(p, c).cache.(cur := s);
    if c.readFault != NO_ERROR then Done(c.readFault, f)
    else Done(NO_ERROR, f.(buf := DiskBlock(f.disk, p.fatStart + s)))
  }

  /** What `get_fat_value` answers: an error, or the entry's value. */
  datatype Read = Read(err: ErrorCode, cache: FatCache, value: U32)

  /**
   * `get_fat_value`: the sector holding entry `n` is loaded unless it is the
   * current one, and the entry is read from the buffer. After a failed read
   * the source leaves the value unwritten; it is 0 here.
   */
  function GetFatValueOf(p: FatPlace, c: FatCache, n: U32): (r: Read)
    requires PlaceOk(p) && CacheOk(c)
    ensures CacheOk(r.cache)
    ensures n / PerSector(p) == c.cur ==> r == Read(NO_ERROR, c, EntryOf(c.buf, p.fsType, n % PerSector(p)))
    ensures n / PerSector(p) != c.cur ==> r.err == c.readFault && r.cache == ReloadOf(p, c, n / PerSector(p)).cache
    ensures r.err == NO_ERROR ==> r.cache.cur == n / PerSector(p)
    ensures r.err == NO_ERROR ==> r.value == EntryOf(r.cache.buf, p.fsType, n % PerSector(p))
  {
    var s := n / PerSector(p);
    var l := if s != c.cur then ReloadOf(p, c, s) else Done(NO_ERROR, c);
    if l.err != NO_ERROR then Read(l.err, l.cache, 0)
    else Read(NO_ERROR, l.cache, EntryOf(l.cache.buf, p.fsType, n % PerSector(p)))
  }

  /** The cache after entry `index` of the loaded sector is set to `value` and the buffer marked modified. */
  function SetEntryOf(p: FatPlace, c: FatCache, index: nat, value: U32): (r: FatCache)
    requires PlaceOk(p) && CacheOk(c) && index < PerSector(p)
    ensures CacheOk(r) && r.mod && r.cur == c.cur && r.disk == c.disk
    ensures EntryOf(r.buf, p.fsType, index) == Stored(p.fsType, value)
    ensures forall k :: 0 <= k < PerSector(p) && k != index ==> EntryOf(r.buf, p.fsType, k) == EntryOf(c.buf, p.fsType, k)
  {
    EntryWriteRead(c.buf, p.fsType, index, value, index);
    forall k | 0 <= k < PerSector(p) && k != index
      ensures EntryOf(EntryWritten(c.buf, p.fsType, index, value), p.fsType, k) == EntryOf(c.buf, p.fsType, k)
    {
      EntryWriteRead(c.buf, p.fsType, index, value, k);
    }
    c.(buf := EntryWritten(c.buf, p.fsType, index, value), mod := true)
  }

  /** What an entry keeps of a value written to it: 16 bits on FAT16, 28 bits on FAT32. */
  function Stored(fsType: nat, value: U32): U32
  {
    if fsType == FAT_16 then value % TWO_16 else value % TWO_28
  }

  // --------------------------------------------------- the FAT it presents

  /** FAT sector `s` as the cache presents it: the buffer for the loaded sector, the device's block for the others. */
  function FatSectorOf(p: FatPlace, c: FatCache, s: nat): (r: seq<Byte>)
    requires CacheOk(c)
    ensures |r| == SECTOR
  {
    if s == c.cur then c.buf else DiskBlock(c.disk, p.fatStart + s)
  }

  /** Entry `n` of the FAT as the cache presents it. */
  function FatEntryOf(p: FatPlace, c: FatCache, n: U32): U32
    requires PlaceOk(p) && CacheOk(c)
  {
    EntryOf(FatSectorOf(p, c, n / PerSector(p)), p.fsType, n % PerSector(p))
  }

  /** Entry `n` lies in the first FAT. */
  predicate InFat(p: FatPlace, n: U32)
    requires PlaceOk(p)
  {
    n / PerSector(p) < p.fatSize
  }

  /** The loaded sector belongs to the first FAT and, unless the buffer is modified, equals the device's copy. */
  predicate Coherent(p: FatPlace, c: FatCache)
  {
    PlaceOk(p) && CacheOk(c) && c.cur < p.fatSize && (!c.mod ==> c.buf == DiskBlock(c.disk, p.fatStart + c.cur))
  }

  /** The device answers every read and write with success. */
  predicate Faultless(c: FatCache)
  {
    c.readFault == NO_ERROR && c.writeFault == NO_ERROR
  }

  /** Two caches present the same first FAT. */
  predicate SameFat(p: FatPlace, c: FatCache, d: FatCache)
    requires CacheOk(c) && CacheOk(d)
  {
    forall s: nat :: s < p.fatSize ==> FatSectorOf(p, c, s) == FatSectorOf(p, d, s)
  }

  /** Two entries of the same sector at the same index are the same entry. */
  lemma SameEntry(n: nat, m: nat, k: nat)
    requires 0 < k && n / k == m / k && n % k == m % k
    ensures n == m
  {
    assert n == (n / k) * k + n % k;
    assert m == (m / k) * k + m % k;
  }

  /** Two different entries of the same sector have different indexes. */
  lemma DistinctEntry(n: nat, m: nat, k: nat)
    requires 0 < k && n != m && n / k == m / k
    ensures n % k != m % k
  {
    if n % k == m % k {
      SameEntry(n, m, k);
    }
  }

  /** A coherent cache whose buffer is not modified presents what the device holds. */
  lemma CleanIsDisk(p: FatPlace, c: FatCache, s: nat)
    requires Coherent(p, c) && !c.mod
    ensures FatSectorOf(p, c, s) == DiskBlock(c.disk, p.fatStart + s)
  {
  }

  /** Flushing keeps the FAT the cache presents and leaves the buffer equal to the device's copy. */
  lemma FlushKeepsFat(p: FatPlace, c: FatCache)
    requires Coherent(p, c) && c.writeFault == NO_ERROR
    ensures FlushOf(p, c).err == NO_ERROR && !FlushOf(p, c).cache.mod
    ensures Coherent(p, FlushOf(p, c).cache) && SameFat(p, c, FlushOf(p, c).cache)
  {
    var f := FlushOf(p, c).cache;
    forall s: nat | s < p.fatSize
      ensures FatSectorOf(p, c, s) == FatSectorOf(p, f, s)
    {
      if s != c.cur {
        assert p.fatStart + s != p.fatStart + c.cur + p.fatSize;
      }
    }
  }

  /**
   * On a device without faults, reading an entry of the first FAT answers
   * the entry the cache presents, and the cache goes on presenting the same
   * FAT: a modified buffer is stored before another sector is loaded.
   */
  lemma GetFatValueReadsFat(p: FatPlace, c: FatCache, n: U32)
    requires Coherent(p, c) && Faultless(c) && InFat(p, n)
    ensures GetFatValueOf(p, c, n).err == NO_ERROR && GetFatValueOf(p, c, n).value == FatEntryOf(p, c, n)
    ensures Coherent(p, GetFatValueOf(p, c, n).cache) && Faultless(GetFatValueOf(p, c, n).cache)
    ensures SameFat(p, c, GetFatValueOf(p, c, n).cache)
  {
    var s := n / PerSector(p);
    if s != c.cur {
      FlushKeepsFat(p, c);
      var f := FlushOf(p, c).cache;
      var r := GetFatValueOf(p, c, n).cache;
      forall t: nat | t < p.fatSize
        ensures FatSectorOf(p, c, t) == FatSectorOf(p, r, t)
      {
        CleanIsDisk(p, f, t);
      }
    }
  }

  /**
   * Setting entry `index` of the loaded sector changes that entry of the FAT
   * the cache presents, to what the entry keeps of the value, and no other.
   */
  lemma SetEntryChangesOne(p: FatPlace, c: FatCache, index: nat, value: U32, n: U32)
    requires Coherent(p, c) && index < PerSector(p)
    ensures Coherent(p, SetEntryOf(p, c, index, value))
    ensures FatEntryOf(p, SetEntryOf(p, c, index, value), n) ==
      if n / PerSector(p) == c.cur && n % PerSector(p) == index then Stored(p.fsType, value) else FatEntryOf(p, c, n)
  {
  }

  // ------------------------------------------------------------ clear_chain

  /**
   * The clusters of the chain from `head` in the FAT the cache presents, at
   * most `links` of them: each cluster is followed by its entry until an
   * entry is an end of chain.
   */
  function ChainOf(p: FatPlace, c: FatCache, head: U32, links: nat): (chain: seq<U32>)
    requires PlaceOk(p) && CacheOk(c)
    ensures |chain| <= links && (links > 0 ==> |chain| > 0 && chain[0] == head)
    decreases links
  {
    if links == 0 then []
    else if IsEoc(p.fsType, FatEntryOf(p, c, head)) then [head]
    else [head] + ChainOf(p, c, FatEntryOf(p, c, head), links - 1)
  }

  /** Every cluster of the chain lies in the first FAT, and no cluster comes twice. */
  predicate PlainChain(p: FatPlace, chain: seq<U32>)
    requires PlaceOk(p)
  {
    (forall i :: 0 <= i < |chain| ==> InFat(p, chain[i])) &&
    (forall i, j :: 0 <= i < j < |chain| ==> chain[i] != chain[j])
  }

  /**
   * One step of `clear_chain`, corrected: the entry of `next` is read, then
   * set to 0 with the buffer marked modified at once. A failed read answers
   * its error.
   */
  function ClearOneOf(p: FatPlace, c: FatCache, next: U32): (r: Read)
    requires PlaceOk(p) && CacheOk(c)
    ensures CacheOk(r.cache)
  {
    var g := GetFatValueOf(p, c, next);
    if g.err != NO_ERROR then g
    else Read(NO_ERROR, SetEntryOf(p, g.cache, next % PerSector(p), 0), g.value)
  }

  /**
   * `clear_chain`, corrected: from `next` on, each cluster's entry is read
   * and cleared until the entry read was an end of chain; at most `links`
   * clusters are cleared. A failed read ends the walk with its error.
   */
  function ClearFrom(p: FatPlace, c: FatCache, next: U32, links: nat): (r: Done)
    requires PlaceOk(p) && CacheOk(c)
    ensures CacheOk(r.cache)
    decreases links, 1
  {
    if links == 0 then Done(NO_ERROR, c)
    else ClearThen(p, ClearOneOf(p, c, next), links - 1)
  }

  /** How the walk of `ClearFrom` goes on after link `z`: it stops on an error or an end of chain, else clears `rest` more. */
  function ClearThen(p: FatPlace, z: Read, rest: nat): (r: Done)
    requires PlaceOk(p) && CacheOk(z.cache)
    ensures CacheOk(r.cache)
    decreases rest + 1, 0
  {
    if z.err != NO_ERROR then Done(z.err, z.cache)
    else if IsEoc(p.fsType, z.value) then Done(NO_ERROR, z.cache)
    else ClearFrom(p, z.cache, z.value, rest)
  }

  /** The chain after its head is itself a chain that lies in the first FAT and visits no cluster twice. */
  lemma RestIsPlain(p: FatPlace, c: FatCache, head: U32, links: nat)
    requires PlaceOk(p) && CacheOk(c) && links > 0 && PlainChain(p, ChainOf(p, c, head, links))
    requires !IsEoc(p.fsType, FatEntryOf(p, c, head))
    ensures ChainOf(p, c, head, links) == [head] + ChainOf(p, c, FatEntryOf(p, c, head), links - 1)
    ensures PlainChain(p, ChainOf(p, c, FatEntryOf(p, c, head), links - 1))
    ensures InFat(p, head) && head !in ChainOf(p, c, FatEntryOf(p, c, head), links - 1)
  {
    var chain := ChainOf(p, c, head, links);
    var rest := ChainOf(p, c, FatEntryOf(p, c, head), links - 1);
    assert chain == [head] + rest;
    forall i, j | 0 <= i < j < |rest|
      ensures rest[i] != rest[j]
    {
      assert rest[i] == chain[i + 1] && rest[j] == chain[j + 1];
    }
    forall i | 0 <= i < |rest|
      ensures InFat(p, rest[i])
    {
      assert rest[i] == chain[i + 1];
    }
    assert InFat(p, chain[0]);
    forall k | 0 <= k < |rest|
      ensures rest[k] != head
    {
      assert rest[k] == chain[k + 1];
    }
  }

  /** Caches that agree on every entry of the first FAT but one have the same chains where that one is not on them. */
  lemma {:induction false} ChainBesides(p: FatPlace, c: FatCache, d: FatCache, head: U32, links: nat, changed: U32)
    requires PlaceOk(p) && CacheOk(c) && CacheOk(d)
    requires AgreeBut(p, c, d, changed)
    requires PlainChain(p, ChainOf(p, c, head, links)) && changed !in ChainOf(p, c, head, links)
    ensures ChainOf(p, d, head, links) == ChainOf(p, c, head, links)
    decreases links
  {
    if links > 0 {
      var chain := ChainOf(p, c, head, links);
      assert InFat(p, chain[0]) && chain[0] == head;
      var v := FatEntryOf(p, c, head);
      assert head != changed;
      assert FatEntryOf(p, d, head) == v;
      if !IsEoc(p.fsType, v) {
        var rest := links - 1;
        RestIsPlain(p, c, head, links);
        ChainBesides(p, c, d, v, rest, changed);
        assert ChainOf(p, d, head, links) == [head] + ChainOf(p, d, v, rest);
      }
    }
  }

  /** `d` presents the first FAT of `c` with the entries of the clusters in `gone` set to 0. */
  predicate ClearedFat(p: FatPlace, c: FatCache, d: FatCache, gone: seq<U32>)
    requires PlaceOk(p) && CacheOk(c) && CacheOk(d)
  {
    forall n: U32 :: InFat(p, n) ==> FatEntryOf(p, d, n) == if n in gone then 0 else FatEntryOf(p, c, n)
  }

  /** Clearing one cluster and then the clusters of `rest` clears all of them. */
  lemma ClearedThen(p: FatPlace, c: FatCache, d: FatCache, e: FatCache, head: U32, rest: seq<U32>)
    requires PlaceOk(p) && CacheOk(c) && CacheOk(d) && CacheOk(e)
    requires ClearedFat(p, c, d, [head]) && ClearedFat(p, d, e, rest)
    ensures ClearedFat(p, c, e, [head] + rest)
  {
    forall n: U32 | InFat(p, n)
      ensures FatEntryOf(p, e, n) == if n in [head] + rest then 0 else FatEntryOf(p, c, n)
    {
      assert (n in [head] + rest) == (n == head || n in rest);
    }
  }

  /** `d` presents the first FAT of `c` with every entry but `changed`'s as it was. */
  predicate AgreeBut(p: FatPlace, c: FatCache, d: FatCache, changed: U32)
    requires PlaceOk(p) && CacheOk(c) && CacheOk(d)
  {
    forall n: U32 :: InFat(p, n) && n != changed ==> FatEntryOf(p, d, n) == FatEntryOf(p, c, n)
  }

  /**
   * Setting the entry of cluster `n0`, whose sector is the loaded one, gives
   * that entry of the FAT the cache presents what it keeps of the value, and
   * leaves every other entry as it was.
   */
  lemma SetOneChanges(p: FatPlace, c: FatCache, n0: U32, value: U32)
    requires Coherent(p, c) && n0 / PerSector(p) == c.cur
    ensures Coherent(p, SetEntryOf(p, c, n0 % PerSector(p), value))
    ensures FatEntryOf(p, SetEntryOf(p, c, n0 % PerSector(p), value), n0) == Stored(p.fsType, value)
    ensures AgreeBut(p, c, SetEntryOf(p, c, n0 % PerSector(p), value), n0)
  {
    var d := SetEntryOf(p, c, n0 % PerSector(p), value);
    forall n: U32 | InFat(p, n) && n != n0
      ensures FatEntryOf(p, d, n) == FatEntryOf(p, c, n)
    {
      SetEntryChangesOne(p, c, n0 % PerSector(p), value, n);
      if n / PerSector(p) == c.cur && n % PerSector(p) == n0 % PerSector(p) {
        SameEntry(n, n0, PerSector(p));
      }
    }
    SetEntryChangesOne(p, c, n0 % PerSector(p), value, n0);
  }

  /**
   * On a device without faults, one step of clearing a cluster of the first
   * FAT answers the cluster's entry and sets that entry to 0, and no other.
   */
  lemma ClearOneClears(p: FatPlace, c: FatCache, head: U32)
    requires Coherent(p, c) && Faultless(c) && InFat(p, head)
    ensures ClearOneOf(p, c, head).err == NO_ERROR && ClearOneOf(p, c, head).value == FatEntryOf(p, c, head)
    ensures Coherent(p, ClearOneOf(p, c, head).cache) && Faultless(ClearOneOf(p, c, head).cache)
    ensures ClearedFat(p, c, ClearOneOf(p, c, head).cache, [head])
    ensures AgreeBut(p, c, ClearOneOf(p, c, head).cache, head)
  {
    GetFatValueReadsFat(p, c, head);
    var g := GetFatValueOf(p, c, head);
    SetOneChanges(p, g.cache, head, 0);
  }

  /**
   * On a device without faults, clearing a chain that lies in the first FAT
   * and visits no cluster twice sets the entry of every cluster of the chain
   * to 0 and leaves every other entry of the first FAT as it was.
   */
  lemma {:induction false} ClearFromClears(p: FatPlace, c: FatCache, head: U32, links: nat)
    requires Coherent(p, c) && Faultless(c) && PlainChain(p, ChainOf(p, c, head, links))
    ensures ClearFrom(p, c, head, links).err == NO_ERROR
    ensures Coherent(p, ClearFrom(p, c, head, links).cache) && Faultless(ClearFrom(p, c, head, links).cache)
    ensures ClearedFat(p, c, ClearFrom(p, c, head, links).cache, ChainOf(p, c, head, links))
    decreases links
  {
    if links > 0 {
      var chain := ChainOf(p, c, head, links);
      assert InFat(p, chain[0]);
      ClearOneClears(p, c, head);
      var z := ClearOneOf(p, c, head);
      if IsEoc(p.fsType, z.value) {
        assert chain == [head];
      } else {
        RestIsPlain(p, c, head, links);
        ChainBesides(p, c, z.cache, z.value, links - 1, head);
        ClearFromClears(p, z.cache, z.value, links - 1);
        ClearedThen(p, c, z.cache, ClearFrom(p, z.cache, z.value, links - 1).cache, head, ChainOf(p, c, z.value, links - 1));
      }
    }
  }

  /**
   * `clear_chain` as written: each entry is set to 0 in the buffer, but the
   * buffer is marked modified only after the walk, so the flush with which
   * `get_fat_value` leaves a FAT sector for the next one stores nothing and
   * the clearing done in the sector left behind is lost. The walk stops at
   * what `is_eoc` accepts as written.
   */
  function ClearChainAsWritten(p: FatPlace, c: FatCache, head: U32, links: nat): (r: Done)
    requires PlaceOk(p) && CacheOk(c)
    ensures CacheOk(r.cache)
    ensures r.err == NO_ERROR ==> r.cache.mod
  {
    var w := ClearFromAsWritten(p, c, head, links);
    if w.err != NO_ERROR then w else Done(NO_ERROR, w.cache.(mod := true))
  }

  /** The loop of `clear_chain` as written, at most `links` turns of it. */
  function ClearFromAsWritten(p: FatPlace, c: FatCache, next: U32, links: nat): (r: Done)
    requires PlaceOk(p) && CacheOk(c)
    ensures CacheOk(r.cache)
    decreases links
  {
    if links == 0 then Done(NO_ERROR, c)
    else
      var g := GetFatValueOf(p, c, next);
      if g.err != NO_ERROR then Done(g.err, g.cache)
      else
        var z := g.cache.(buf := EntryWritten(g.cache.buf, p.fsType, next % PerSector(p), 0));
        if IsEocAsWritten(p.fsType, g.value) then Done(NO_ERROR, z) else ClearFromAsWritten(p, z, g.value, links - 1)
  }

  /**
   * A FAT32 chain of two clusters `h` then `m` in different FAT sectors, the
   * buffer holding `h`'s sector unmodified: as written, clearing the chain
   * leaves `h`'s entry pointing at `m` (the zero written into the buffer is
   * dropped when `m`'s sector is loaded), so cluster `h` stays allocated and
   * points at a free cluster; the corrected walk clears both entries.
   */
  lemma ClearChainLosesWrites(p: FatPlace, c: FatCache, h: U32, m: U32, links: nat)
    requires Coherent(p, c) && Faultless(c) && !c.mod && p.fsType == FAT_32 && links >= 2
    requires InFat(p, h) && InFat(p, m) && h / PerSector(p) == c.cur && m / PerSector(p) != c.cur
    requires m < 0x0FFF_FFF8 && FatEntryOf(p, c, h) == m && FatEntryOf(p, c, m) == EOC_MASK
    ensures ChainOf(p, c, h, links) == [h, m]
    ensures FatEntryOf(p, ClearFrom(p, c, h, links).cache, h) == 0
    ensures FatEntryOf(p, ClearFrom(p, c, h, links).cache, m) == 0
    ensures ClearChainAsWritten(p, c, h, links).err == NO_ERROR
    ensures FatEntryOf(p, ClearChainAsWritten(p, c, h, links).cache, h) == m
  {
    TwoClusterChain(p, c, h, m, links);
    ClearFromClears(p, c, h, links);
    TwoClusterAsWritten(p, c, h, m, links);
  }

  lemma TwoClusterChain(p: FatPlace, c: FatCache, h: U32, m: U32, links: nat)
    requires PlaceOk(p) && CacheOk(c) && p.fsType == FAT_32 && links >= 2
    requires m < 0x0FFF_FFF8 && FatEntryOf(p, c, h) == m && FatEntryOf(p, c, m) == EOC_MASK
    ensures ChainOf(p, c, h, links) == [h, m]
  {
    assert IsEoc(FAT_32, EOC_MASK) && !IsEoc(FAT_32, m);
    assert ChainOf(p, c, m, links - 1) == [m];
  }

  lemma TwoClusterAsWritten(p: FatPlace, c: FatCache, h: U32, m: U32, links: nat)
    requires Coherent(p, c) && Faultless(c) && !c.mod && p.fsType == FAT_32 && links >= 2
    requires h / PerSector(p) == c.cur && m / PerSector(p) != c.cur
    requires m < 0x0FFF_FFF8 && FatEntryOf(p, c, h) == m && FatEntryOf(p, c, m) == EOC_MASK
    ensures ClearChainAsWritten(p, c, h, links).err == NO_ERROR
    ensures FatEntryOf(p, ClearChainAsWritten(p, c, h, links).cache, h) == m
  {
    var g1 := GetFatValueOf(p, c, h);
    assert g1.cache == c && g1.value == m;
    var z1 := c.(buf := EntryWritten(c.buf, p.fsType, h % PerSector(p), 0));
    assert ClearFromAsWritten(p, c, h, links) == ClearFromAsWritten(p, z1, m, links - 1);
    var g2 := GetFatValueOf(p, z1, m);
    assert g2.cache.disk == c.disk && g2.cache.cur == m / PerSector(p);
    assert g2.value == FatEntryOf(p, c, m);
    var w := ClearFromAsWritten(p, z1, m, links - 1);
    assert w.err == NO_ERROR && w.cache.disk == c.disk && w.cache.cur == m / PerSector(p);
    var r := ClearChainAsWritten(p, c, h, links).cache;
    assert r.disk == c.disk && r.cur != c.cur;
    assert FatSectorOf(p, r, c.cur) == DiskBlock(c.disk, p.fatStart + c.cur) == c.buf;
  }

  // ----------------------------------------------------- mark_eoc, trim_chain

  /** The buffer after `mark_eoc`, or the write running past the end of the buffer. */
  datatype Marked = Marked(cache: FatCache) | PastBuffer

  /**
   * `mark_eoc` as written: the FAT32 end marker 0x0FFFFFFF is stored as four
   * bytes at a byte offset whatever the FAT type, and the buffer is marked
   * modified.
   */
  function MarkEocAsWritten(c: FatCache, offset: nat): (r: Marked)
    requires CacheOk(c)
    ensures r.Marked? <==> offset + 4 <= SECTOR
    ensures r.Marked? ==> CacheOk(r.cache) && r.cache.mod && Sd.GetLong(r.cache.buf, offset) == EOC_MASK
  {
    if offset + 4 > SECTOR then PastBuffer else Marked(c.(buf := Sd.LongWritten(c.buf, offset, EOC_MASK), mod := true))
  }

  /**
   * Given the offset of a FAT16 entry, as `trim_chain` gives it, `mark_eoc`
   * sets the entry to 0xFFFF and also sets the next entry to 0x0FFF, and for
   * the last entry of a sector writes past the buffer; the corrected marking
   * (an entry of the FAT's own width) leaves the next entry alone.
   */
  lemma MarkEocFat16Clobbers(p: FatPlace, c: FatCache, index: nat)
    requires PlaceOk(p) && CacheOk(c) && p.fsType == FAT_16 && index < PerSector(p)
    ensures index == 255 ==> MarkEocAsWritten(c, GetFatSectorOffset(index, p.fsType, p.entriesShift)) == PastBuffer
    ensures index < 255 ==> MarkEocAsWritten(c, GetFatSectorOffset(index, p.fsType, p.entriesShift)).Marked?
    ensures index < 255 ==> EntryOf(MarkEocAsWritten(c, GetFatSectorOffset(index, p.fsType, p.entriesShift)).cache.buf, FAT_16, index + 1) == 0x0FFF
    ensures index < 255 ==> EntryOf(SetEntryOf(p, c, index, EOC_MASK).buf, FAT_16, index + 1) == EntryOf(c.buf, FAT_16, index + 1)
    ensures EntryOf(SetEntryOf(p, c, index, EOC_MASK).buf, FAT_16, index) == 0xFFFF
  {
    assert GetFatSectorOffset(index, p.fsType, p.entriesShift) == index * 2;
    if index < 255 {
      var r := MarkEocAsWritten(c, index * 2).cache.buf;
      assert Sd.GetLong(r, index * 2) / TWO_16 == Sd.GetShort(r, index * 2 + 2);
    }
  }

  /**
   * `trim_chain`, corrected: the tail's entry is read; unless it is already an
   * end of chain, the tail gets the end marker and the clusters that followed
   * it are cleared (at most `links` of them).
   */
  function TrimChainOf(p: FatPlace, c: FatCache, tail: U32, links: nat): (r: Done)
    requires PlaceOk(p) && CacheOk(c)
    ensures CacheOk(r.cache)
  {
    var g := GetFatValueOf(p, c, tail);
    if g.err != NO_ERROR then Done(g.err, g.cache)
    else if IsEoc(p.fsType, g.value) then Done(NO_ERROR, g.cache)
    else ClearFrom(p, SetEntryOf(p, g.cache, tail % PerSector(p), EOC_MASK), g.value, links)
  }

  /** The clusters that follow `tail` on its chain, at most `links` of them. */
  function CutOf(p: FatPlace, c: FatCache, tail: U32, links: nat): seq<U32>
    requires PlaceOk(p) && CacheOk(c)
  {
    if IsEoc(p.fsType, FatEntryOf(p, c, tail)) then [] else ChainOf(p, c, FatEntryOf(p, c, tail), links)
  }

  /**
   * On a device without faults, trimming a chain at a cluster of the first
   * FAT makes the cluster's entry an end of chain and frees the clusters
   * that followed it; no other entry of the first FAT changes.
   */
  lemma TrimChainTrims(p: FatPlace, c: FatCache, tail: U32, links: nat)
    requires Coherent(p, c) && Faultless(c) && InFat(p, tail)
    requires PlainChain(p, CutOf(p, c, tail, links)) && tail !in CutOf(p, c, tail, links)
    ensures TrimChainOf(p, c, tail, links).err == NO_ERROR && Coherent(p, TrimChainOf(p, c, tail, links).cache)
    ensures IsEoc(p.fsType, FatEntryOf(p, TrimChainOf(p, c, tail, links).cache, tail))
    ensures forall n: U32 :: InFat(p, n) && n != tail ==>
      FatEntryOf(p, TrimChainOf(p, c, tail, links).cache, n) == if n in CutOf(p, c, tail, links) then 0 else FatEntryOf(p, c, n)
  {
    GetFatValueReadsFat(p, c, tail);
    var g := GetFatValueOf(p, c, tail);
    var r := TrimChainOf(p, c, tail, links).cache;
    if IsEoc(p.fsType, g.value) {
      SameFatEntries(p, c, g.cache);
    } else {
      SetOneChanges(p, g.cache, tail, EOC_MASK);
      var m := SetEntryOf(p, g.cache, tail % PerSector(p), EOC_MASK);
      AgreeAfterRead(p, c, g.cache, m, tail);
      assert IsEoc(p.fsType, Stored(p.fsType, EOC_MASK));
      ChainBesides(p, c, m, g.value, links, tail);
      ClearFromClears(p, m, g.value, links);
      var cut := CutOf(p, c, tail, links);
      assert ClearedFat(p, m, r, cut);
      forall n: U32 | InFat(p, n) && n != tail
        ensures FatEntryOf(p, r, n) == if n in cut then 0 else FatEntryOf(p, c, n)
      {
      }
    }
  }

  /** Caches that present the same first FAT present the same entries. */
  lemma SameFatEntries(p: FatPlace, c: FatCache, d: FatCache)
    requires PlaceOk(p) && CacheOk(c) && CacheOk(d) && SameFat(p, c, d)
    ensures forall n: U32 :: InFat(p, n) ==> FatEntryOf(p, d, n) == FatEntryOf(p, c, n)
  {
    forall n: U32 | InFat(p, n)
      ensures FatEntryOf(p, d, n) == FatEntryOf(p, c, n)
    {
      assert FatSectorOf(p, c, n / PerSector(p)) == FatSectorOf(p, d, n / PerSector(p));
    }
  }

  /** A change to one entry after a read that kept the first FAT changes only that entry of the FAT before the read. */
  lemma AgreeAfterRead(p: FatPlace, c: FatCache, d: FatCache, e: FatCache, changed: U32)
    requires PlaceOk(p) && CacheOk(c) && CacheOk(d) && CacheOk(e)
    requires SameFat(p, c, d) && AgreeBut(p, d, e, changed)
    ensures AgreeBut(p, c, e, changed)
  {
    SameFatEntries(p, c, d);
  }

  /**
   * `trim_chain` as written: the end-of-chain test is applied to the tail's
   * cluster number, not to its entry, so the walk goes on even when the tail
   * is already the last cluster: the tail is marked with `mark_eoc` and
   * `clear_chain` starts from the end marker read from its entry.
   */
  function TrimChainAsWritten(p: FatPlace, c: FatCache, tail: U32, links: nat): (r: Marked)
    requires PlaceOk(p) && CacheOk(c)
  {
    if IsEocAsWritten(p.fsType, tail) then Marked(c)
    else
      var g := GetFatValueOf(p, c, tail);
      if g.err != NO_ERROR then Marked(g.cache)
      else
        var m := MarkEocAsWritten(g.cache, GetFatSectorOffset(tail, p.fsType, p.entriesShift));
        if m.PastBuffer? then PastBuffer else Marked(ClearChainAsWritten(p, m.cache, g.value, links).cache)
  }

  /**
   * Trimming a FAT32 chain at its last cluster: the corrected trim changes
   * nothing; as written, the first entry cleared is that of cluster
   * 0x0FFFFFFF, the end marker, whose FAT sector lies past the end of a FAT
   * of fewer sectors, and the buffer holding it is marked modified, so the
   * next flush writes it outside both FATs.
   */
  lemma TrimLastAsWritten(p: FatPlace, c: FatCache, tail: U32)
    requires Coherent(p, c) && Faultless(c) && p.fsType == FAT_32 && p.fatSize <= EOC_MASK / PerSector(p)
    requires InFat(p, tail) && tail < 0x0FFF_FFF8 && FatEntryOf(p, c, tail) == EOC_MASK
    ensures TrimChainOf(p, c, tail, 1).err == NO_ERROR && SameFat(p, c, TrimChainOf(p, c, tail, 1).cache)
    ensures TrimChainAsWritten(p, c, tail, 1).Marked?
    ensures TrimChainAsWritten(p, c, tail, 1).cache.cur == EOC_MASK / PerSector(p) >= p.fatSize
    ensures TrimChainAsWritten(p, c, tail, 1).cache.mod
  {
    GetFatValueReadsFat(p, c, tail);
    assert IsEoc(FAT_32, EOC_MASK);
    assert tail % TWO_28 == tail;
    assert !IsEocAsWritten(FAT_32, tail);
    var g := GetFatValueOf(p, c, tail);
    assert g.err == NO_ERROR && g.value == EOC_MASK;
    var m := MarkEocAsWritten(g.cache, GetFatSectorOffset(tail, p.fsType, p.entriesShift));
    assert m.Marked? && m.cache.cur == g.cache.cur == tail / PerSector(p);
    assert TrimChainAsWritten(p, c, tail, 1) == Marked(ClearChainAsWritten(p, m.cache, EOC_MASK, 1).cache);
    ClearFromMarker(p, m.cache);
  }

  /** One turn of `clear_chain` as written from the end marker loads the marker's FAT sector. */
  lemma ClearFromMarker(p: FatPlace, c: FatCache)
    requires PlaceOk(p) && CacheOk(c) && Faultless(c) && p.fsType == FAT_32 && c.cur < EOC_MASK / PerSector(p)
    ensures ClearChainAsWritten(p, c, EOC_MASK, 1).err == NO_ERROR
    ensures ClearChainAsWritten(p, c, EOC_MASK, 1).cache.cur == EOC_MASK / PerSector(p)
  {
    assert GetFatValueOf(p, c, EOC_MASK).err == NO_ERROR;
  }

  // ------------------------------------------------------- find_empty_space

  /** The first entry from `from` on in a FAT sector whose value is 0 (free), or the number of entries when there is none. */
  function FirstFree(p: FatPlace, buf: seq<Byte>, from: nat): (i: nat)
    requires PlaceOk(p) && |buf| == SECTOR && from <= PerSector(p)
    ensures from <= i <= PerSector(p)
    ensures i < PerSector(p) ==> EntryOf(buf, p.fsType, i) == 0
    decreases PerSector(p) - from
  {
    if from == PerSector(p) || EntryOf(buf, p.fsType, from) == 0 then from else FirstFree(p, buf, from + 1)
  }

  /** No entry the search passes over is free. */
  lemma {:induction false} FirstFreeSkips(p: FatPlace, buf: seq<Byte>, from: nat)
    requires PlaceOk(p) && |buf| == SECTOR && from <= PerSector(p)
    ensures forall k :: from <= k < FirstFree(p, buf, from) ==> EntryOf(buf, p.fsType, k) != 0
    decreases PerSector(p) - from
  {
    if from < PerSector(p) && EntryOf(buf, p.fsType, from) != 0 {
      FirstFreeSkips(p, buf, from + 1);
    }
  }

  /**
   * The entry of the loaded sector where `find_empty_space` starts: on FAT32
   * the clusters 2 to 8 are kept for the root directory, so in the FAT's
   * first sector the search starts at entry 9.
   */
  function FirstCandidate(p: FatPlace, cur: U32): (j: nat)
    requires PlaceOk(p)
    ensures j < PerSector(p)
  {
    if p.fsType == FAT_32 && cur == 0 then 9 else 0
  }

  /** The cluster number of entry `j` of FAT sector `s`, `(s << shift) + j` in 32 bits. */
  function ClusterAt(p: FatPlace, s: nat, j: nat): U32
    requires PlaceOk(p)
  {
    (s * PerSector(p) + j) % TWO_32
  }

  /** What `find_empty_space` finds: a cluster now marked as the end of a chain, or no free entry. */
  datatype Allocated = Allocated(cluster: U32, cache: FatCache) | NoneFree(cache: FatCache)

  /**
   * `find_empty_space`, corrected: the first free entry from the start
   * candidate of the loaded sector on, then sector by sector to the end of
   * the first FAT, gets the end marker. Found in the loaded sector, it is
   * marked in the buffer; found further on, the loaded sector is stored
   * first, the entry is marked in the sector that holds it and that sector
   * is stored in both FATs at its own place, and the buffer holds the
   * loaded sector again. The number answered is the found entry's cluster.
   */
  function FindFreeOf(p: FatPlace, c: FatCache): (r: Allocated)
    requires PlaceOk(p) && CacheOk(c)
    ensures CacheOk(r.cache)
  {
    var j := FirstFree(p, c.buf, FirstCandidate(p, c.cur));
    if j < PerSector(p) then Allocated(ClusterAt(p, c.cur, j), SetEntryOf(p, c, j, EOC_MASK))
    else FreeAfter(p, FlushOf(p, c).cache, c.cur + 1)
  }

  /** The search of `FindFreeOf` from FAT sector `s` on, the loaded sector already stored. */
  function FreeAfter(p: FatPlace, f: FatCache, s: nat): (r: Allocated)
    requires PlaceOk(p) && CacheOk(f)
    ensures CacheOk(r.cache)
  {
    var t := NextFreeSector(p, f.disk, s);
    if t >= p.fatSize then NoneFree(f)
    else
      var j := FirstFree(p, DiskBlock(f.disk, p.fatStart + t), 0);
      Allocated(ClusterAt(p, t, j), StoreMarked(p, f, t, j))
  }

  /** The device's FAT sector `s` has a free entry. */
  predicate HasFree(p: FatPlace, disk: map<nat, seq<Byte>>, s: nat)
    requires PlaceOk(p) && DiskOk(disk)
  {
    FirstFree(p, DiskBlock(disk, p.fatStart + s), 0) < PerSector(p)
  }

  /** The first sector of the first FAT from `s` on with a free entry on the device, or a sector past the FAT. */
  function NextFreeSector(p: FatPlace, disk: map<nat, seq<Byte>>, s: nat): (t: nat)
    requires PlaceOk(p) && DiskOk(disk)
    ensures s <= t && (t < p.fatSize ==> HasFree(p, disk, t))
    ensures t >= p.fatSize ==> t == s || t == p.fatSize
    decreases p.fatSize - s
  {
    if s >= p.fatSize || HasFree(p, disk, s) then s else NextFreeSector(p, disk, s + 1)
  }

  /** No sector the search passes over has a free entry. */
  lemma {:induction false} NextFreeSkips(p: FatPlace, disk: map<nat, seq<Byte>>, s: nat)
    requires PlaceOk(p) && DiskOk(disk)
    ensures forall u :: s <= u < NextFreeSector(p, disk, s) ==> !HasFree(p, disk, u)
    decreases p.fatSize - s
  {
    if s < p.fatSize && !HasFree(p, disk, s) {
      NextFreeSkips(p, disk, s + 1);
    }
  }

  /** The cache after entry `j` of FAT sector `s` is marked as an end of chain on the device, in both FATs. */
  function StoreMarked(p: FatPlace, f: FatCache, s: nat, j: nat): (d: FatCache)
    requires PlaceOk(p) && CacheOk(f) && j < PerSector(p)
    ensures CacheOk(d) && d == f.(disk := d.disk)
  {
    var marked := EntryWritten(DiskBlock(f.disk, p.fatStart + s), p.fsType, j, EOC_MASK);
    f.(disk := f.disk[p.fatStart + s := marked][p.fatStart + s + p.fatSize := marked])
  }

  /** The first entry `FindFreeOf` looks at. */
  function StartOf(p: FatPlace, c: FatCache): nat
    requires PlaceOk(p)
  {
    c.cur * PerSector(p) + FirstCandidate(p, c.cur)
  }

  /** No entry of the first FAT from `lo` up to `hi` is free. */
  predicate NoFreeBetween(p: FatPlace, c: FatCache, lo: nat, hi: nat)
    requires PlaceOk(p) && CacheOk(c)
  {
    forall n: U32 {:trigger FatEntryOf(p, c, n)} :: lo <= n < hi && InFat(p, n) ==> FatEntryOf(p, c, n) != 0
  }

  /** Two runs of entries none of which is free, one after the other, make one. */
  lemma NoFreeJoin(p: FatPlace, c: FatCache, a: nat, b: nat, e: nat)
    requires PlaceOk(p) && CacheOk(c) && NoFreeBetween(p, c, a, b) && NoFreeBetween(p, c, b, e)
    ensures NoFreeBetween(p, c, a, e)
  {
  }

  /** Entry `j` of FAT sector `s` is the entry of cluster `s * K + j`. */
  lemma EntryPlace(p: FatPlace, n: nat, s: nat, j: nat)
    requires PlaceOk(p) && j < PerSector(p) && n == s * PerSector(p) + j
    ensures n / PerSector(p) == s && n % PerSector(p) == j
  {
  }

  /** A sector none of whose entries from `from` on is free leaves no free entry from that entry of the sector to its end. */
  lemma SectorFull(p: FatPlace, c: FatCache, s: nat, from: nat, upto: nat)
    requires PlaceOk(p) && CacheOk(c) && from <= upto <= PerSector(p)
    requires forall k :: from <= k < upto ==> EntryOf(FatSectorOf(p, c, s), p.fsType, k) != 0
    ensures NoFreeBetween(p, c, s * PerSector(p) + from, s * PerSector(p) + upto)
  {
    forall n: U32 | s * PerSector(p) + from <= n < s * PerSector(p) + upto && InFat(p, n)
      ensures FatEntryOf(p, c, n) != 0
    {
      EntryPlace(p, n, s, n - s * PerSector(p));
    }
  }

  /**
   * What the search from FAT sector `s` on promises, the loaded sector
   * stored and before `s`: only the device changes and the loaded sector
   * stays the device's copy; no entry from sector `s` on up to the found
   * cluster is free; a found cluster lies at or after sector `s` and is
   * marked as the end of a chain, and no other entry of the first FAT
   * changed; when none is found, nothing changed.
   */
  predicate Searched(p: FatPlace, f: FatCache, s: nat, r: Allocated)
    requires PlaceOk(p) && CacheOk(f) && CacheOk(r.cache)
  {
    Coherent(p, r.cache) && r.cache == f.(disk := r.cache.disk) &&
    NoFreeBetween(p, f, s * PerSector(p), if r.Allocated? then r.cluster else TWO_32) &&
    (r.NoneFree? ==> r.cache == f) &&
    (r.Allocated? ==> s * PerSector(p) <= r.cluster && FreeFound(p, f, r))
  }

  /**
   * On a device without faults, the search from FAT sector `s` on, the
   * loaded sector stored and before `s`, marks the first free entry from
   * sector `s` on as the end of a chain, changes no other entry of the first
   * FAT, and keeps the loaded sector; when no entry is free, nothing changes.
   */
  lemma FreeAfterAllocates(p: FatPlace, f: FatCache, s: nat)
    requires Coherent(p, f) && f.cur < s && p.fatSize * PerSector(p) <= TWO_32
    ensures Searched(p, f, s, FreeAfter(p, f, s))
  {
    if NextFreeSector(p, f.disk, s) < p.fatSize {
      FoundSearched(p, f, s);
    } else {
      SectorsFull(p, f, s, NextFreeSector(p, f.disk, s), TWO_32);
      assert FreeAfter(p, f, s) == NoneFree(f);
    }
  }

  /** `FreeAfterAllocates` when a sector with a free entry is found. */
  lemma FoundSearched(p: FatPlace, f: FatCache, s: nat)
    requires Coherent(p, f) && f.cur < s && p.fatSize * PerSector(p) <= TWO_32
    requires NextFreeSector(p, f.disk, s) < p.fatSize
    ensures Searched(p, f, s, FreeAfter(p, f, s))
  {
    var t := NextFreeSector(p, f.disk, s);
    var j := FirstFree(p, DiskBlock(f.disk, p.fatStart + t), 0);
    FoundBounds(PerSector(p), p.fatSize, s, t, j);
    var n0 := t * PerSector(p) + j;
    FoundAt(p, f, s, t, j, n0);
    MarkedFound(p, f, t, j, n0);
    FoundKeeps(p, f, s, t, j, n0);
  }

  /** The search from sector `s` on that finds entry `j` of sector `t` free answers that entry's cluster. */
  lemma FoundAt(p: FatPlace, f: FatCache, s: nat, t: nat, j: nat, n0: U32)
    requires PlaceOk(p) && CacheOk(f) && t == NextFreeSector(p, f.disk, s) && t < p.fatSize
    requires j == FirstFree(p, DiskBlock(f.disk, p.fatStart + t), 0) && n0 == t * PerSector(p) + j
    ensures FreeAfter(p, f, s) == Allocated(n0, StoreMarked(p, f, t, j))
  {
    ClusterAtIs(p, t, j, n0);
  }

  /** A cluster number below 2^32 does not wrap. */
  lemma ClusterAtIs(p: FatPlace, t: nat, j: nat, n0: U32)
    requires PlaceOk(p) && n0 == t * PerSector(p) + j
    ensures ClusterAt(p, t, j) == n0
  {
  }

  /** The promise of `FoundAt` about the cache it leaves. */
  lemma FoundKeeps(p: FatPlace, f: FatCache, s: nat, t: nat, j: nat, n0: U32)
    requires Coherent(p, f) && f.cur < s && t == NextFreeSector(p, f.disk, s) && t < p.fatSize
    requires j == FirstFree(p, DiskBlock(f.disk, p.fatStart + t), 0)
    requires n0 == t * PerSector(p) + j && s * PerSector(p) <= n0
    requires Coherent(p, StoreMarked(p, f, t, j)) && FreeFound(p, f, Allocated(n0, StoreMarked(p, f, t, j)))
    ensures Searched(p, f, s, Allocated(n0, StoreMarked(p, f, t, j)))
  {
    SectorsFull(p, f, s, t, n0);
  }

  /** Entry `j` of sector `t`, a sector of the first FAT from `s` on, is a 32-bit cluster number from sector `s` on. */
  lemma FoundBounds(k: nat, fatSize: nat, s: nat, t: nat, j: nat)
    requires (k == 128 || k == 256) && s <= t < fatSize && j < k && fatSize * k <= TWO_32
    ensures s * k <= t * k + j < TWO_32
  {
    assert (t + 1) * k <= fatSize * k;
  }

  /** No entry of the first FAT is free from sector `s` on up to entry `hi`, the first free entry of sector `t` or past the FAT. */
  lemma SectorsFull(p: FatPlace, f: FatCache, s: nat, t: nat, hi: nat)
    requires Coherent(p, f) && f.cur < s && t == NextFreeSector(p, f.disk, s)
    requires t < p.fatSize ==> hi == t * PerSector(p) + FirstFree(p, DiskBlock(f.disk, p.fatStart + t), 0)
    requires t >= p.fatSize ==> hi == TWO_32
    ensures NoFreeBetween(p, f, s * PerSector(p), hi)
  {
    forall n: U32 | s * PerSector(p) <= n < hi && InFat(p, n)
      ensures FatEntryOf(p, f, n) != 0
    {
      EntryNotFree(p, f, s, t, hi, n);
    }
  }

  /** One entry of the range of `SectorsFull`. */
  lemma EntryNotFree(p: FatPlace, f: FatCache, s: nat, t: nat, hi: nat, n: U32)
    requires Coherent(p, f) && f.cur < s && t == NextFreeSector(p, f.disk, s)
    requires t < p.fatSize ==> hi == t * PerSector(p) + FirstFree(p, DiskBlock(f.disk, p.fatStart + t), 0)
    requires t >= p.fatSize ==> hi == TWO_32
    requires s * PerSector(p) <= n < hi && InFat(p, n)
    ensures FatEntryOf(p, f, n) != 0
  {
    var k := PerSector(p);
    var u := n / k;
    SectorBounds(k, n, s);
    if u < t {
      NextFreeSkips(p, f.disk, s);
      assert !HasFree(p, f.disk, u);
      BeforeFirstFree(p, f, u, n, k);
    } else {
      assert t < p.fatSize;
      var j := FirstFree(p, DiskBlock(f.disk, p.fatStart + t), 0);
      InLastSector(k, n, t, j);
      BeforeFirstFree(p, f, t, n, j);
    }
  }

  /** An entry of a sector other than the loaded one that comes before the sector's first free entry is not free. */
  lemma BeforeFirstFree(p: FatPlace, f: FatCache, u: nat, n: U32, j: nat)
    requires PlaceOk(p) && CacheOk(f) && u != f.cur && n / PerSector(p) == u
    requires j == FirstFree(p, DiskBlock(f.disk, p.fatStart + u), 0) && n % PerSector(p) < j
    ensures FatEntryOf(p, f, n) != 0
  {
    FirstFreeSkips(p, DiskBlock(f.disk, p.fatStart + u), 0);
    assert FatSectorOf(p, f, u) == DiskBlock(f.disk, p.fatStart + u);
  }

  /** An entry from sector `s` on lies in sector `s` or after. */
  lemma SectorBounds(k: nat, n: nat, s: nat)
    requires (k == 128 || k == 256) && s * k <= n
    ensures s <= n / k
  {
  }

  /** An entry below entry `j` of sector `t`, in sector `t` or after, lies in sector `t` before index `j`. */
  lemma InLastSector(k: nat, n: nat, t: nat, j: nat)
    requires (k == 128 || k == 256) && t <= n / k && n < t * k + j && j <= k
    ensures n / k == t && n % k < j
  {
  }

  /**
   * What the search promises when it finds cluster `r.cluster`: the
   * cluster is in the first FAT, its entry was free and is now an end of
   * chain, and no other entry of the first FAT changed.
   */
  predicate FreeFound(p: FatPlace, c: FatCache, r: Allocated)
    requires PlaceOk(p) && CacheOk(c) && CacheOk(r.cache) && r.Allocated?
  {
    InFat(p, r.cluster) && FatEntryOf(p, c, r.cluster) == 0 &&
    FatEntryOf(p, r.cache, r.cluster) == Stored(p.fsType, EOC_MASK) && AgreeBut(p, c, r.cache, r.cluster)
  }

  /** Marking the first free entry `j` of sector `s`, not the loaded one, marks that entry of the first FAT and no other. */
  lemma MarkedFound(p: FatPlace, f: FatCache, s: nat, j: nat, n0: U32)
    requires Coherent(p, f) && f.cur < s < p.fatSize
    requires j == FirstFree(p, DiskBlock(f.disk, p.fatStart + s), 0) && j < PerSector(p)
    requires n0 == s * PerSector(p) + j
    ensures ClusterAt(p, s, j) == n0
    ensures Coherent(p, StoreMarked(p, f, s, j))
    ensures FreeFound(p, f, Allocated(n0, StoreMarked(p, f, s, j)))
  {
    EntryPlace(p, n0, s, j);
    MarkedEntry(p, f, s, j, n0);
    MarkedAgree(p, f, s, j, n0);
  }

  /** The marked entry is free before and an end of chain after. */
  lemma MarkedEntry(p: FatPlace, f: FatCache, s: nat, j: nat, n0: U32)
    requires Coherent(p, f) && f.cur < s < p.fatSize
    requires j == FirstFree(p, DiskBlock(f.disk, p.fatStart + s), 0) && j < PerSector(p)
    requires n0 == s * PerSector(p) + j
    ensures FatEntryOf(p, f, n0) == 0
    ensures FatEntryOf(p, StoreMarked(p, f, s, j), n0) == Stored(p.fsType, EOC_MASK)
  {
    var b := DiskBlock(f.disk, p.fatStart + s);
    EntryPlace(p, n0, s, j);
    assert FatSectorOf(p, f, s) == b;
    assert FatSectorOf(p, StoreMarked(p, f, s, j), s) == EntryWritten(b, p.fsType, j, EOC_MASK);
    EntryWriteRead(b, p.fsType, j, EOC_MASK, j);
  }

  /** Marking entry `j` of sector `s` changes no other entry of the first FAT. */
  lemma MarkedAgree(p: FatPlace, f: FatCache, s: nat, j: nat, n0: U32)
    requires Coherent(p, f) && f.cur < s < p.fatSize && j < PerSector(p) && n0 == s * PerSector(p) + j
    ensures Coherent(p, StoreMarked(p, f, s, j))
    ensures AgreeBut(p, f, StoreMarked(p, f, s, j), n0)
  {
    forall n: U32 | InFat(p, n) && n != n0
      ensures FatEntryOf(p, StoreMarked(p, f, s, j), n) == FatEntryOf(p, f, n)
    {
      NotMarked(p, f, s, j, n);
    }
  }

  /** An entry of the first FAT other than entry `j` of sector `s` keeps its value when that sector is marked and stored. */
  lemma NotMarked(p: FatPlace, f: FatCache, s: nat, j: nat, n: U32)
    requires Coherent(p, f) && f.cur < s < p.fatSize && j < PerSector(p)
    requires InFat(p, n) && n != s * PerSector(p) + j
    ensures FatEntryOf(p, StoreMarked(p, f, s, j), n) == FatEntryOf(p, f, n)
  {
    var k := PerSector(p);
    var t := n / k;
    if t == s {
      EntryPlace(p, s * k + j, s, j);
      DistinctEntry(n, s * k + j, k);
      MarkedKeepsOthers(p, f, s, j, n % k);
    } else {
      assert p.fatStart + t != p.fatStart + s + p.fatSize;
      assert FatSectorOf(p, StoreMarked(p, f, s, j), t) == FatSectorOf(p, f, t);
    }
  }

  /** Marking entry `j` of sector `s` keeps the sector's other entries. */
  lemma MarkedKeepsOthers(p: FatPlace, f: FatCache, s: nat, j: nat, i: nat)
    requires Coherent(p, f) && f.cur < s < p.fatSize && j < PerSector(p) && i < PerSector(p) && i != j
    ensures EntryOf(FatSectorOf(p, StoreMarked(p, f, s, j), s), p.fsType, i) == EntryOf(FatSectorOf(p, f, s), p.fsType, i)
  {
    var b := DiskBlock(f.disk, p.fatStart + s);
    assert FatSectorOf(p, f, s) == b;
    assert FatSectorOf(p, StoreMarked(p, f, s, j), s) == EntryWritten(b, p.fsType, j, EOC_MASK);
    EntryWriteRead(b, p.fsType, j, EOC_MASK, i);
  }

  /**
   * What `FindFreeOf` promises from entry `lo` on: the cache stays coherent,
   * keeps the loaded sector and the device's faults; no entry of the first
   * FAT from `lo` on up to the found cluster is free; a found cluster lies at
   * or after `lo`, was free and is now the end of a chain, and no other entry
   * changed; when none is found, the first FAT is unchanged.
   */
  predicate AllocatedFrom(p: FatPlace, c: FatCache, lo: nat, r: Allocated)
    requires PlaceOk(p) && CacheOk(c) && CacheOk(r.cache)
  {
    Coherent(p, r.cache) && r.cache.cur == c.cur &&
    r.cache.readFault == c.readFault && r.cache.writeFault == c.writeFault &&
    NoFreeBetween(p, c, lo, if r.Allocated? then r.cluster else TWO_32) &&
    (r.NoneFree? ==> SameFat(p, c, r.cache)) &&
    (r.Allocated? ==> lo <= r.cluster && FreeFound(p, c, r))
  }

  /**
   * On a device without faults and a FAT whose cluster numbers fit 32 bits,
   * `find_empty_space` (corrected) gives the first free entry from its
   * start candidate on the end-of-chain marker and changes no other entry;
   * when it finds none, no entry from there on is free and the FAT is
   * unchanged.
   */
  lemma FindFreeAllocates(p: FatPlace, c: FatCache)
    requires Coherent(p, c) && Faultless(c) && p.fatSize * PerSector(p) <= TWO_32
    ensures AllocatedFrom(p, c, StartOf(p, c), FindFreeOf(p, c))
  {
    var j := FirstFree(p, c.buf, FirstCandidate(p, c.cur));
    if j < PerSector(p) {
      FindFreeHere(p, c, j);
    } else {
      FindFreeOn(p, c);
    }
  }

  /** `FindFreeAllocates` when the loaded sector has a free entry. */
  lemma FindFreeHere(p: FatPlace, c: FatCache, j: nat)
    requires Coherent(p, c) && p.fatSize * PerSector(p) <= TWO_32
    requires j == FirstFree(p, c.buf, FirstCandidate(p, c.cur)) && j < PerSector(p)
    ensures AllocatedFrom(p, c, StartOf(p, c), FindFreeOf(p, c))
  {
    var k := PerSector(p);
    FoundBounds(k, p.fatSize, c.cur, c.cur, j);
    var n0 := c.cur * k + j;
    ClusterAtIs(p, c.cur, j, n0);
    EntryPlace(p, n0, c.cur, j);
    assert FindFreeOf(p, c) == Allocated(n0, SetEntryOf(p, c, j, EOC_MASK));
    SetOneChanges(p, c, n0, EOC_MASK);
    assert FatSectorOf(p, c, c.cur) == c.buf;
    FirstFreeSkips(p, c.buf, FirstCandidate(p, c.cur));
    SectorFull(p, c, c.cur, FirstCandidate(p, c.cur), j);
  }

  /** `FindFreeAllocates` when the loaded sector has no free entry from the start candidate on. */
  lemma FindFreeOn(p: FatPlace, c: FatCache)
    requires Coherent(p, c) && Faultless(c) && p.fatSize * PerSector(p) <= TWO_32
    requires FirstFree(p, c.buf, FirstCandidate(p, c.cur)) == PerSector(p)
    ensures AllocatedFrom(p, c, StartOf(p, c), FindFreeOf(p, c))
  {
    var k := PerSector(p);
    FlushKeepsFat(p, c);
    var f := FlushOf(p, c).cache;
    GoesOn(p, c);
    LoadedFull(p, c);
    SearchOnAllocates(p, c, f, c.cur + 1);
  }

  /** The search from the sector after the loaded one, over the stored cache `f`, keeps the promise of `AllocatedFrom` for `c`. */
  lemma SearchOnAllocates(p: FatPlace, c: FatCache, f: FatCache, s: nat)
    requires Coherent(p, c) && Coherent(p, f) && SameFat(p, c, f) && p.fatSize * PerSector(p) <= TWO_32
    requires f.cur == c.cur && f.readFault == c.readFault && f.writeFault == c.writeFault
    requires s == c.cur + 1 && NoFreeBetween(p, c, StartOf(p, c), c.cur * PerSector(p) + PerSector(p))
    requires s * PerSector(p) == c.cur * PerSector(p) + PerSector(p)
    ensures AllocatedFrom(p, c, StartOf(p, c), FreeAfter(p, f, s))
  {
    FreeAfterAllocates(p, f, s);
    SearchedFromFlushed(p, c, f, s, FreeAfter(p, f, s));
  }


  /** With no free entry in the loaded sector, `FindFreeOf` is the search from the next sector on. */
  lemma GoesOn(p: FatPlace, c: FatCache)
    requires PlaceOk(p) && CacheOk(c) && FirstFree(p, c.buf, FirstCandidate(p, c.cur)) == PerSector(p)
    ensures FindFreeOf(p, c) == FreeAfter(p, FlushOf(p, c).cache, c.cur + 1)
  {
  }

  /** With no free entry in the loaded sector, no entry from the start candidate to the sector's end is free. */
  lemma LoadedFull(p: FatPlace, c: FatCache)
    requires PlaceOk(p) && CacheOk(c) && FirstFree(p, c.buf, FirstCandidate(p, c.cur)) == PerSector(p)
    ensures NoFreeBetween(p, c, StartOf(p, c), c.cur * PerSector(p) + PerSector(p))
    ensures (c.cur + 1) * PerSector(p) == c.cur * PerSector(p) + PerSector(p)
  {
    assert FatSectorOf(p, c, c.cur) == c.buf;
    FirstFreeSkips(p, c.buf, FirstCandidate(p, c.cur));
    SectorFull(p, c, c.cur, FirstCandidate(p, c.cur), PerSector(p));
  }

  /** The search after the loaded sector was stored keeps, for the cache before the flush, the promise of `AllocatedFrom`. */
  lemma SearchedFromFlushed(p: FatPlace, c: FatCache, f: FatCache, s: nat, r: Allocated)
    requires Coherent(p, c) && Coherent(p, f) && CacheOk(r.cache) && SameFat(p, c, f) && s == c.cur + 1
    requires f.cur == c.cur && f.readFault == c.readFault && f.writeFault == c.writeFault
    requires Searched(p, f, s, r)
    requires NoFreeBetween(p, c, StartOf(p, c), c.cur * PerSector(p) + PerSector(p))
    requires s * PerSector(p) == c.cur * PerSector(p) + PerSector(p)
    ensures AllocatedFrom(p, c, StartOf(p, c), r)
  {
    var hi := if r.Allocated? then r.cluster else TWO_32;
    SameFatEntries(p, c, f);
    assert NoFreeBetween(p, c, s * PerSector(p), hi);
    NoFreeJoin(p, c, StartOf(p, c), s * PerSector(p), hi);
    if r.Allocated? {
      AgreeAfterRead(p, c, f, r.cache, r.cluster);
    }
  }


  /** What `find_empty_space` as written comes to: a cluster, a read past the FAT buffer, or a search cut short by `fuel`. */
  datatype Scan = Found(cluster: U32, cache: FatCache) | ReadsPastBuffer | OutOfFuel

  /**
   * `find_empty_space` as written. The search starts in the loaded sector.
   * On FAT16 the byte offset is not reset when the next sector is read, so a
   * loaded sector with no free entry sends the search past the end of the
   * buffer. On FAT32 each sector without a free entry is followed by the
   * next one: the buffer is flushed to the loaded sector's place (which
   * stores the loaded sector the first time and nothing after), and the next
   * device block is read. Once an entry is marked in a sector other than
   * the loaded one, the flush stores that sector in the loaded sector's
   * place, the loaded sector is read back, and the cluster answered is the
   * entry's index in the loaded sector. `fuel` bounds the sectors read.
   */
  function FindEmptySpaceAsWritten(p: FatPlace, c: FatCache, fuel: nat): (r: Scan)
    requires PlaceOk(p) && CacheOk(c)
    ensures r.Found? ==> CacheOk(r.cache) && r.cache.cur == c.cur
  {
    ScanAsWritten(p, c, p.fatStart + c.cur, FirstCandidate(p, c.cur), fuel)
  }

  /** The search of `FindEmptySpaceAsWritten` in the buffer of `w`, which holds device block `addr`, from entry `i` on. */
  function ScanAsWritten(p: FatPlace, w: FatCache, addr: nat, i: nat, fuel: nat): (r: Scan)
    requires PlaceOk(p) && CacheOk(w) && i < PerSector(p)
    ensures r.Found? ==> CacheOk(r.cache) && r.cache.cur == w.cur
    decreases fuel
  {
    var j := FirstFree(p, w.buf, i);
    if j < PerSector(p) then
      var m := w.(buf := EntryWritten(w.buf, p.fsType, j, EOC_MASK), mod := true);
      if addr != p.fatStart + w.cur then
        var f := FlushOf(p, m).cache;
        Found(ClusterAt(p, w.cur, j), if f.readFault != NO_ERROR then f else f.(buf := DiskBlock(f.disk, p.fatStart + f.cur)))
      else Found(ClusterAt(p, w.cur, j), m)
    else if p.fsType == FAT_16 then ReadsPastBuffer
    else if fuel == 0 then OutOfFuel
    else
      var f := FlushOf(p, w).cache;
      ScanAsWritten(p, if f.readFault != NO_ERROR then f else f.(buf := DiskBlock(f.disk, addr + 1)), addr + 1, 0, fuel - 1)
  }

  /**
   * On FAT16, a loaded sector with no free entry makes `find_empty_space` as
   * written read past the FAT buffer, where the corrected search goes on to
   * the next sectors and finds the first free entry there or reports none.
   */
  lemma FindEmptySpaceFat16OverRuns(p: FatPlace, c: FatCache, fuel: nat)
    requires Coherent(p, c) && Faultless(c) && p.fsType == FAT_16 && p.fatSize * PerSector(p) <= TWO_32
    requires FirstFree(p, c.buf, 0) == PerSector(p)
    ensures FindEmptySpaceAsWritten(p, c, fuel) == ReadsPastBuffer
    ensures AllocatedFrom(p, c, c.cur * PerSector(p), FindFreeOf(p, c))
  {
    FindFreeAllocates(p, c);
  }

  /**
   * On FAT32, when the loaded sector (not the first) has no free entry and
   * the next sector has one, `find_empty_space` as written answers the
   * cluster at the same index of the loaded sector, one sector's worth of
   * clusters too low, and overwrites the loaded sector on the device with
   * the next sector's marked contents; the corrected search answers the
   * free entry's own cluster.
   */
  lemma FindEmptySpaceWrongSector(p: FatPlace, c: FatCache, fuel: nat, b: seq<Byte>, j: nat)
    requires Coherent(p, c) && Faultless(c) && p.fsType == FAT_32 && p.fatSize * PerSector(p) <= TWO_32
    requires 0 < c.cur && c.cur + 1 < p.fatSize && 1 <= fuel
    requires FirstFree(p, c.buf, 0) == PerSector(p)
    requires b == DiskBlock(c.disk, p.fatStart + c.cur + 1) && j == FirstFree(p, b, 0) && j < PerSector(p)
    ensures FindEmptySpaceAsWritten(p, c, fuel).Found? && FindFreeOf(p, c).Allocated?
    ensures FindEmptySpaceAsWritten(p, c, fuel).cluster + PerSector(p) == FindFreeOf(p, c).cluster
    ensures DiskBlock(FindEmptySpaceAsWritten(p, c, fuel).cache.disk, p.fatStart + c.cur) == EntryWritten(b, FAT_32, j, EOC_MASK)
  {
    var f := FlushOf(p, c).cache;
    assert DiskBlock(f.disk, p.fatStart + c.cur + 1) == b;
    NextSectorCluster(p, c.cur, j);
    WrongSectorCorrected(p, c, f, j);
    WrongSectorAsWritten(p, c, f, b, j, fuel);
  }

  /** Entry `j` of the next sector is one sector's worth of clusters after entry `j` of sector `s`. */
  lemma NextSectorCluster(p: FatPlace, s: nat, j: nat)
    requires PlaceOk(p) && j < PerSector(p) && s + 1 < p.fatSize && p.fatSize * PerSector(p) <= TWO_32
    ensures ClusterAt(p, s, j) + PerSector(p) == ClusterAt(p, s + 1, j)
  {
    var k := PerSector(p);
    FoundBounds(k, p.fatSize, s, s + 1, j);
    assert (s + 1) * k == s * k + k;
    ClusterAtIs(p, s + 1, j, (s + 1) * k + j);
    ClusterAtIs(p, s, j, s * k + j);
  }

  /** The corrected search of `FindEmptySpaceWrongSector`. */
  lemma WrongSectorCorrected(p: FatPlace, c: FatCache, f: FatCache, j: nat)
    requires Coherent(p, c) && c.cur + 1 < p.fatSize && f == FlushOf(p, c).cache
    requires FirstFree(p, c.buf, FirstCandidate(p, c.cur)) == PerSector(p)
    requires j == FirstFree(p, DiskBlock(f.disk, p.fatStart + c.cur + 1), 0) && j < PerSector(p)
    ensures FindFreeOf(p, c) == Allocated(ClusterAt(p, c.cur + 1, j), StoreMarked(p, f, c.cur + 1, j))
  {
    GoesOn(p, c);
    assert HasFree(p, f.disk, c.cur + 1);
    assert NextFreeSector(p, f.disk, c.cur + 1) == c.cur + 1;
  }

  /** The search as written of `FindEmptySpaceWrongSector`. */
  lemma WrongSectorAsWritten(p: FatPlace, c: FatCache, f: FatCache, b: seq<Byte>, j: nat, fuel: nat)
    requires Coherent(p, c) && Faultless(c) && p.fsType == FAT_32 && 0 < c.cur && 1 <= fuel
    requires f == FlushOf(p, c).cache && b == DiskBlock(f.disk, p.fatStart + c.cur + 1)
    requires FirstFree(p, c.buf, 0) == PerSector(p) && j == FirstFree(p, b, 0) && j < PerSector(p)
    ensures FindEmptySpaceAsWritten(p, c, fuel).Found?
    ensures FindEmptySpaceAsWritten(p, c, fuel).cluster == ClusterAt(p, c.cur, j)
    ensures DiskBlock(FindEmptySpaceAsWritten(p, c, fuel).cache.disk, p.fatStart + c.cur) == EntryWritten(b, FAT_32, j, EOC_MASK)
  {
    var w := f.(buf := b);
    NextBlockRead(p, c, fuel);
    assert FindEmptySpaceAsWritten(p, c, fuel) == ScanAsWritten(p, w, p.fatStart + c.cur + 1, 0, fuel - 1);
    assert w.cur == c.cur && w.writeFault == NO_ERROR;
    FoundElsewhere(p, w, p.fatStart + c.cur + 1, fuel - 1, j);
  }

  /** With no free entry in the loaded FAT32 sector, the search as written goes on in the next device block. */
  lemma NextBlockRead(p: FatPlace, c: FatCache, fuel: nat)
    requires PlaceOk(p) && CacheOk(c) && c.readFault == NO_ERROR && p.fsType == FAT_32 && 0 < c.cur && 1 <= fuel
    requires FirstFree(p, c.buf, 0) == PerSector(p)
    ensures var f := FlushOf(p, c).cache;
      FindEmptySpaceAsWritten(p, c, fuel) ==
      ScanAsWritten(p, f.(buf := DiskBlock(f.disk, p.fatStart + c.cur + 1)), p.fatStart + c.cur + 1, 0, fuel - 1)
  {
    assert FirstCandidate(p, c.cur) == 0;
  }



  /** A free entry `j` found in a block other than the loaded sector's is marked, and the flush stores the block in the loaded sector's place. */
  lemma FoundElsewhere(p: FatPlace, w: FatCache, addr: nat, fuel: nat, j: nat)
    requires PlaceOk(p) && CacheOk(w) && w.writeFault == NO_ERROR && addr != p.fatStart + w.cur
    requires j == FirstFree(p, w.buf, 0) && j < PerSector(p)
    ensures ScanAsWritten(p, w, addr, 0, fuel).Found?
    ensures ScanAsWritten(p, w, addr, 0, fuel).cluster == ClusterAt(p, w.cur, j)
    ensures DiskBlock(ScanAsWritten(p, w, addr, 0, fuel).cache.disk, p.fatStart + w.cur) == EntryWritten(w.buf, p.fsType, j, EOC_MASK)
  {
    var m := w.(buf := EntryWritten(w.buf, p.fsType, j, EOC_MASK), mod := true);
    assert ScanAsWritten(p, w, addr, 0, fuel).cache.disk == FlushOf(p, m).cache.disk;
  }


  // ------------------------------------------------------------- extend_fat

  /** What `extend_fat` answers: an error, or the cluster appended to the chain. */
  datatype Extend = Extend(err: ErrorCode, cache: FatCache, next: U32)

  /**
   * `extend_fat` (corrected): the sector holding `tail`'s entry is loaded as
   * `get_fat_value` loads it, the entry must be an end of chain, a free
   * cluster is found and marked as the new end, and `tail`'s entry is set
   * to that cluster. When no free cluster is found, `EMPTY_FAT_ENTRY` is
   * answered and nothing is appended.
   */
  function ExtendFatOf(p: FatPlace, c: FatCache, tail: U32): (r: Extend)
    requires PlaceOk(p) && CacheOk(c)
    ensures CacheOk(r.cache)
    ensures r.err == NO_ERROR ==> r.cache.cur == tail / PerSector(p)
  {
    var g := GetFatValueOf(p, c, tail);
    if g.err != NO_ERROR then Extend(g.err, g.cache, 0)
    else if !IsEoc(p.fsType, g.value) then Extend(INVALID_FAT_APPEND, g.cache, 0)
    else
      var a := FindFreeOf(p, g.cache);
      if a.NoneFree? then Extend(EMPTY_FAT_ENTRY, a.cache, 0)
      else Extend(NO_ERROR, SetEntryOf(p, a.cache, tail % PerSector(p), a.cluster), a.cluster)
  }

  /**
   * The FAT of `e` is the FAT of `c` with the chain ending at `tail` grown by
   * `next`: `next` was free, is now the end of the chain, `tail`'s entry holds
   * `next`, and no other entry changed.
   */
  predicate Appended(p: FatPlace, c: FatCache, e: FatCache, tail: U32, next: U32)
    requires PlaceOk(p) && CacheOk(c) && CacheOk(e)
  {
    InFat(p, next) && next != tail && FatEntryOf(p, c, next) == 0 &&
    FatEntryOf(p, e, next) == Stored(p.fsType, EOC_MASK) &&
    FatEntryOf(p, e, tail) == Stored(p.fsType, next) &&
    forall n: U32 :: InFat(p, n) && n != tail && n != next ==> FatEntryOf(p, e, n) == FatEntryOf(p, c, n)
  }

  /**
   * On a device without faults, extending the chain that ends at `tail`
   * answers `INVALID_FAT_APPEND` exactly when `tail`'s entry is not an end of
   * chain, and then changes no entry; otherwise it appends the first free
   * cluster from `tail`'s sector on (the first FAT32 sector from cluster 9
   * on), or answers `EMPTY_FAT_ENTRY` when there is none and changes no
   * entry.
   */
  lemma ExtendFatAppends(p: FatPlace, c: FatCache, tail: U32)
    requires Coherent(p, c) && Faultless(c) && InFat(p, tail) && p.fatSize * PerSector(p) <= TWO_32
    ensures var r := ExtendFatOf(p, c, tail);
      Coherent(p, r.cache) && Faultless(r.cache) &&
      (r.err == NO_ERROR || r.err == INVALID_FAT_APPEND || r.err == EMPTY_FAT_ENTRY) &&
      (r.err == INVALID_FAT_APPEND <==> !IsEoc(p.fsType, FatEntryOf(p, c, tail))) &&
      (r.err != NO_ERROR ==> SameFat(p, c, r.cache))
    ensures var r := ExtendFatOf(p, c, tail);
      var lo := (tail / PerSector(p)) * PerSector(p) + FirstCandidate(p, tail / PerSector(p));
      (r.err == EMPTY_FAT_ENTRY ==> NoFreeBetween(p, c, lo, TWO_32)) &&
      (r.err == NO_ERROR ==> Appended(p, c, r.cache, tail, r.next) && lo <= r.next && NoFreeBetween(p, c, lo, r.next))
  {
    GetFatValueReadsFat(p, c, tail);
    var g := GetFatValueOf(p, c, tail);
    if IsEoc(p.fsType, g.value) {
      FindFreeAllocates(p, g.cache);
      var a := FindFreeOf(p, g.cache);
      SameFatEntries(p, c, g.cache);
      if a.NoneFree? {
        SameFatTransitive(p, c, g.cache, a.cache);
      } else {
        AppendedAfterFind(p, c, g.cache, a, tail);
      }
    }
  }

  /** Two caches that present the same FAT as a third present the same FAT. */
  lemma SameFatTransitive(p: FatPlace, c: FatCache, d: FatCache, e: FatCache)
    requires CacheOk(c) && CacheOk(d) && CacheOk(e) && SameFat(p, c, d) && SameFat(p, d, e)
    ensures SameFat(p, c, e)
  {
  }

  /** Setting `tail`'s entry to the cluster the search found completes the append. */
  lemma AppendedAfterFind(p: FatPlace, c: FatCache, g: FatCache, a: Allocated, tail: U32)
    requires Coherent(p, c) && Coherent(p, g) && CacheOk(a.cache) && a.Allocated? && InFat(p, tail)
    requires g.cur == tail / PerSector(p) && IsEoc(p.fsType, FatEntryOf(p, g, tail))
    requires forall n: U32 :: InFat(p, n) ==> FatEntryOf(p, g, n) == FatEntryOf(p, c, n)
    requires AllocatedFrom(p, g, StartOf(p, g), a)
    ensures Coherent(p, SetEntryOf(p, a.cache, tail % PerSector(p), a.cluster))
    ensures Appended(p, c, SetEntryOf(p, a.cache, tail % PerSector(p), a.cluster), tail, a.cluster)
    ensures NoFreeBetween(p, c, StartOf(p, g), a.cluster)
  {
    var e := SetEntryOf(p, a.cache, tail % PerSector(p), a.cluster);
    assert a.cluster != tail by {
      EocMarkers(p.fsType, 0, 0);
    }
    SetOneChanges(p, a.cache, tail, a.cluster);
    assert FatEntryOf(p, e, a.cluster) == FatEntryOf(p, a.cache, a.cluster);
    assert NoFreeBetween(p, c, StartOf(p, g), a.cluster) by {
      assert NoFreeBetween(p, g, StartOf(p, g), a.cluster);
    }
  }

  /**
   * The end-of-chain test of `extend_fat` as written: four bytes are read at
   * the entry's byte offset whatever the FAT type and given to `is_eoc` as
   * written; for the last entry of a FAT16 sector the read goes past the FAT
   * buffer.
   */
  datatype EocTest = Tested(eoc: bool) | ReadsPast

  /** `extend_fat`'s test of the entry at `index`, as written. */
  function ExtendTestAsWritten(fsType: nat, buf: seq<Byte>, index: nat): (r: EocTest)
    requires |buf| == SECTOR
    ensures r.ReadsPast? <==> index * fsType + 3 >= SECTOR
  {
    if index * fsType + 3 < SECTOR then Tested(IsEocAsWritten(fsType, Sd.GetLong(buf, index * fsType)))
    else ReadsPast
  }

  /**
   * As written, a FAT16 chain end 0xFFFF followed by an entry other than
   * 0xFFFF (a free one, say) fails the test, so `extend_fat` answers
   * `INVALID_FAT_APPEND` for a chain that does end there; the corrected test
   * accepts it.
   */
  lemma ExtendTestFat16Rejects(buf: seq<Byte>, index: nat)
    requires |buf| == SECTOR && index + 1 < 256
    requires EntryOf(buf, FAT_16, index) == 0xFFFF && EntryOf(buf, FAT_16, index + 1) != 0xFFFF
    ensures ExtendTestAsWritten(FAT_16, buf, index) == Tested(false)
    ensures IsEoc(FAT_16, EntryOf(buf, FAT_16, index))
  {
    var v := Sd.GetLong(buf, index * 2);
    assert v / TWO_16 == EntryOf(buf, FAT_16, index + 1);
    assert v != TWO_32 - 1;
  }

  // -------------------------------------------------------------- mounting

  /**
   * What `mount` finds on a device: a partition above 3 is refused before
   * the device is read; a failed read answers its error (every transfer of
   * the device answers the same); then the boot sector is located and
   * parsed. The answer is the boot sector's address and the geometry.
   */
  function MountOf(disk: map<nat, seq<Byte>>, readFault: ErrorCode, partition: nat): (r: Outcome<(U32, Geometry)>)
    requires DiskOk(disk)
    ensures 3 < partition ==> r == Fail(UNSUPPORTED_FILESYSTEM)
    ensures partition <= 3 && readFault != NO_ERROR ==> r == Fail(readFault)
    ensures r.Ok? ==> BootSectorOf(DiskBlock(disk, 0), partition) == Ok(r.value.0)
    ensures r.Ok? ==> Parse(DiskBlock(disk, r.value.0), r.value.0) == Ok(r.value.1)
    ensures r.Ok? ==> EntryLayout(r.value.1.fatType.fsType, r.value.1.fatType.entriesShift)
  {
    if 3 < partition then Fail(UNSUPPORTED_FILESYSTEM)
    else if readFault != NO_ERROR then Fail(readFault)
    else
      var b := BootSectorOf(DiskBlock(disk, 0), partition);
      if b.Fail? then Fail(b.err)
      else
        var g := Parse(DiskBlock(disk, b.value), b.value);
        if g.Fail? then Fail(g.err) else Ok((b.value, g.value))
  }

  /** A sector that starts with the boot sector id is the boot sector itself, at address 0. */
  lemma BootSectorAtZero(disk: map<nat, seq<Byte>>, partition: nat)
    requires DiskOk(disk) && partition <= 3 && DiskBlock(disk, 0)[BOOT_SECTOR_ID_ADDR] == BOOT_SECTOR_ID
    ensures BootSectorOf(DiskBlock(disk, 0), partition).Ok? <==> partition == 0
    ensures BootSectorOf(DiskBlock(disk, 0), partition).Ok? ==> BootSectorOf(DiskBlock(disk, 0), partition).value == 0
  {
  }

  /** A sector with a free entry ends the search for one. */
  lemma NextFreeHere(p: FatPlace, disk: map<nat, seq<Byte>>, t: nat)
    requires PlaceOk(p) && DiskOk(disk) && t < p.fatSize && HasFree(p, disk, t)
    ensures NextFreeSector(p, disk, t) == t
  {
  }

  /** A sector without a free entry passes the search on to the next. */
  lemma NextFreeStep(p: FatPlace, disk: map<nat, seq<Byte>>, t: nat, u: nat)
    requires PlaceOk(p) && DiskOk(disk) && t < p.fatSize && !HasFree(p, disk, t) && u == t + 1
    ensures NextFreeSector(p, disk, t) == NextFreeSector(p, disk, u)
  {
  }

  /** Past the first FAT the search ends where it starts. */
  lemma NextFreePast(p: FatPlace, disk: map<nat, seq<Byte>>, t: nat)
    requires PlaceOk(p) && DiskOk(disk) && p.fatSize <= t
    ensures NextFreeSector(p, disk, t) == t
  {
  }


  /**
   * Where the search of the device's FAT sectors from `from` on stands at
   * sector `t`: `j` is that sector's first free entry once one is found,
   * and on a device without faults the search from `t` ends where the
   * search from `from` does.
   */
  ghost predicate SearchAt(p: FatPlace, disk: map<nat, seq<Byte>>, ok: bool, from: nat, t: nat, j: nat)
    requires PlaceOk(p) && DiskOk(disk)
  {
    && from <= t && j <= PerSector(p)
    && (j < PerSector(p) ==> t < p.fatSize && (ok ==> j == FirstFree(p, DiskBlock(disk, p.fatStart + t), 0) && HasFree(p, disk, t)))
    && (ok ==> NextFreeSector(p, disk, t) == NextFreeSector(p, disk, from))
  }

  /**
   * The FAT sectors from `from` on are read from the device one after the
   * other until one holds a free entry: its number and the entry's index.
   * The search ends where `SearchAt` holds with a found entry or past the
   * FAT; `SearchDone` then gives `NextFreeSector` and that sector's
   * `FirstFree` on a device without faults.
   */
  method NextFreeSectorOn(device: BlockStorage.Device, p: FatPlace, from: nat) returns (t: nat, j: nat)
    requires device.Valid() && PlaceOk(p)
    ensures SearchAt(p, device.blocks, device.readFault == NO_ERROR, from, t, j) && (t >= p.fatSize || j < PerSector(p))
  {
    var k := PerSector(p);
    ghost var disk := device.blocks;
    ghost var ok := device.readFault == NO_ERROR;
    t, j := from, k;
    while t < p.fatSize && j == k
      invariant SearchAt(p, disk, ok, from, t, j)
      decreases p.fatSize - t, j
    {
      t, j := SearchStepOn(device, p, disk, ok, from, t);
    }
  }

  /** Where the search stops, on a full sector or past the FAT, it has found what `NextFreeSector` describes. */
  lemma SearchDone(p: FatPlace, disk: map<nat, seq<Byte>>, ok: bool, from: nat, t: nat, j: nat)
    requires PlaceOk(p) && DiskOk(disk) && SearchAt(p, disk, ok, from, t, j)
    requires t >= p.fatSize || j < PerSector(p)
    ensures from <= t && (t < p.fatSize ==> j < PerSector(p))
    ensures ok ==> t == NextFreeSector(p, disk, from)
    ensures ok && t < p.fatSize ==> j == FirstFree(p, DiskBlock(disk, p.fatStart + t), 0)
  {
    if ok {
      if t < p.fatSize {
        NextFreeHere(p, disk, t);
      } else {
        NextFreePast(p, disk, t);
      }
    }
  }

  /** One step of `NextFreeSectorOn`: sector `t` is searched, and the search moves on past it when it is full. */
  method SearchStepOn(device: BlockStorage.Device, p: FatPlace, ghost disk: map<nat, seq<Byte>>, ghost ok: bool, from: nat, t: nat)
    returns (u: nat, j: nat)
    requires device.Valid() && PlaceOk(p) && disk == device.blocks && ok == (device.readFault == NO_ERROR)
    requires t < p.fatSize && SearchAt(p, disk, ok, from, t, PerSector(p))
    ensures SearchAt(p, disk, ok, from, u, j)
    ensures (u == t && j < PerSector(p)) || (u == t + 1 && j == PerSector(p))
  {
    j := FirstFreeOn(device, p, t);
    u := t;
    if j == PerSector(p) {
      u := t + 1;
      if ok {
        NextFreeStep(p, disk, t, u);
      }
    }
  }

  /** FAT sector `t` is read from the device into a scratch buffer and searched from its first entry on. */
  method FirstFreeOn(device: BlockStorage.Device, p: FatPlace, t: nat) returns (j: nat)
    requires device.Valid() && PlaceOk(p)
    ensures j <= PerSector(p)
    ensures device.readFault == NO_ERROR ==> HasFree(p, device.blocks, t) == (j < PerSector(p))
    ensures device.readFault == NO_ERROR ==> j == FirstFree(p, DiskBlock(device.blocks, p.fatStart + t), 0)
  {
    var sector := new Byte[SECTOR];
    var _ := device.ReadDataBlock(p.fatStart + t, sector);
    j := FirstFree(p, sector[..], 0);
  }

  /** `write_short` or `write_long` of entry `index` of a FAT sector held in `buf`. */
  method WriteEntry(buf: array<Byte>, fsType: nat, index: nat, value: U32)
    requires buf.Length == SECTOR && InSector(fsType, index)
    modifies buf
    ensures buf[..] == EntryWritten(old(buf[..]), fsType, index, value)
  {
    if fsType == FAT_16 {
      Sd.WriteShort(index * 2, buf, value % TWO_16);
    } else {
      Sd.WriteLong(index * 4, buf, value);
    }
  }

  /** The first free entry of the sector held in `buf` from entry `from` on, entry by entry. */
  method FirstFreeInBuffer(buf: array<Byte>, p: FatPlace, from: nat) returns (i: nat)
    requires buf.Length == SECTOR && PlaceOk(p) && from <= PerSector(p)
    ensures i == FirstFree(p, buf[..], from)
  {
    var k := PerSector(p);
    i := from;
    while i < k && EntryOf(buf[..], p.fsType, i) != 0
      invariant from <= i <= k
      invariant FirstFree(p, buf[..], i) == FirstFree(p, buf[..], from)
      decreases k - i
    {
      i := i + 1;
    }
  }

  /** FAT sector `t` as read from the device into a fresh buffer, with entry `j` set to the end-of-chain marker. */
  method MarkedSector(device: BlockStorage.Device, p: FatPlace, t: nat, j: nat) returns (sector: array<Byte>)
    requires device.Valid() && PlaceOk(p) && j < PerSector(p)
    ensures fresh(sector) && sector.Length == SECTOR
    ensures device.readFault == NO_ERROR ==>
      sector[..] == EntryWritten(DiskBlock(device.blocks, p.fatStart + t), p.fsType, j, EOC_MASK)
  {
    sector := new Byte[SECTOR];
    var _ := device.ReadDataBlock(p.fatStart + t, sector);
    WriteEntry(sector, p.fsType, j, EOC_MASK);
  }

  /** The two ways `FindFreeOf` goes: a free entry in the loaded sector, or the search of the stored sectors after it. */
  lemma FindFreeCases(p: FatPlace, c: FatCache, i: nat, from: nat)
    requires PlaceOk(p) && CacheOk(c) && i == FirstFree(p, c.buf, FirstCandidate(p, c.cur)) && from == c.cur + 1
    ensures i < PerSector(p) ==> FindFreeOf(p, c) == Allocated(ClusterAt(p, c.cur, i), SetEntryOf(p, c, i, EOC_MASK))
    ensures i >= PerSector(p) ==> FindFreeOf(p, c) == FreeAfter(p, FlushOf(p, c).cache, from)
  {
  }

  /** The two ways `FreeAfter` ends: past the FAT with nothing found, or at the first free entry of sector `t`. */
  lemma FreeAfterCases(p: FatPlace, f: FatCache, s: nat, t: nat, j: nat)
    requires PlaceOk(p) && CacheOk(f) && t == NextFreeSector(p, f.disk, s)
    requires t < p.fatSize ==> j == FirstFree(p, DiskBlock(f.disk, p.fatStart + t), 0)
    ensures t >= p.fatSize ==> FreeAfter(p, f, s) == NoneFree(f)
    ensures t < p.fatSize ==> FreeAfter(p, f, s) == Allocated(ClusterAt(p, t, j), StoreMarked(p, f, t, j))
  {
  }

  /** The ways `ExtendFatOf` goes once `tail`'s entry was read as `g`. */
  lemma ExtendFatCases(p: FatPlace, c: FatCache, tail: U32, g: Read)
    requires PlaceOk(p) && CacheOk(c) && g == GetFatValueOf(p, c, tail)
    ensures g.err != NO_ERROR ==> ExtendFatOf(p, c, tail) == Extend(g.err, g.cache, 0)
    ensures g.err == NO_ERROR && !IsEoc(p.fsType, g.value) ==> ExtendFatOf(p, c, tail) == Extend(INVALID_FAT_APPEND, g.cache, 0)
    ensures g.err == NO_ERROR && IsEoc(p.fsType, g.value) && FindFreeOf(p, g.cache).NoneFree? ==>
      ExtendFatOf(p, c, tail) == Extend(EMPTY_FAT_ENTRY, FindFreeOf(p, g.cache).cache, 0)
    ensures g.err == NO_ERROR && IsEoc(p.fsType, g.value) && FindFreeOf(p, g.cache).Allocated? ==>
      ExtendFatOf(p, c, tail) ==
      Extend(NO_ERROR, SetEntryOf(p, FindFreeOf(p, g.cache).cache, tail % PerSector(p), FindFreeOf(p, g.cache).cluster),
             FindFreeOf(p, g.cache).cluster)
    ensures g.cache.readFault == c.readFault && g.cache.writeFault == c.writeFault
  {
  }

  /**
   * `read_boot_sector`: sector 0 is read into `buffer`; when it is not the
   * boot sector, partition `partition`'s row of the partition table names
   * the boot sector, which is read into `buffer`. As `BootSectorOf`
   * describes it, on a device that answers every read the same way.
   */
  method LocateBootSector(device: BlockStorage.Device, buffer: array<Byte>, partition: nat) returns (err: ErrorCode, boot: U32)
    requires device.Valid() && buffer.Length == SECTOR && partition <= 3
    modifies buffer
    ensures device.readFault != NO_ERROR ==> err == device.readFault
    ensures device.readFault == NO_ERROR && BootSectorOf(DiskBlock(device.blocks, 0), partition).Fail? ==>
      err == BootSectorOf(DiskBlock(device.blocks, 0), partition).err
    ensures device.readFault == NO_ERROR && BootSectorOf(DiskBlock(device.blocks, 0), partition).Ok? ==>
      err == NO_ERROR && boot == BootSectorOf(DiskBlock(device.blocks, 0), partition).value &&
      buffer[..] == DiskBlock(device.blocks, boot)
  {
    boot := 0;
    err := device.ReadDataBlock(0, buffer);
    if err != NO_ERROR {
      return;
    }
    if buffer[BOOT_SECTOR_ID_ADDR] == BOOT_SECTOR_ID {
      if partition != 0 {
        return PARTITION_DOES_NOT_EXIST, 0;
      }
      return NO_ERROR, 0;
    }
    var row := PartitionRow(partition);
    err := IsFatVolume(buffer[row + PARTITION_ID_OFFSET]);
    if err != NO_ERROR {
      return;
    }
    boot := Sd.GetLong(buffer[..], row + PARTITION_START_OFFSET);
    err := device.ReadDataBlock(boot, buffer);
  }

  /**
   * `read_boot_sector` and the parsers: the geometry `mount` finds on the
   * device for a partition it accepts, as `MountOf` describes it.
   */
  method Probe(device: BlockStorage.Device, buffer: array<Byte>, partition: nat) returns (err: ErrorCode, boot: U32, g: Geometry)
    requires device.Valid() && buffer.Length == SECTOR && partition <= 3
    modifies buffer
    ensures MountOf(device.blocks, device.readFault, partition) == if err == NO_ERROR then Ok((boot, g)) else Fail(err)
  {
    err, boot := LocateBootSector(device, buffer, partition);
    g := Geometry(BootInfo(0, 0, 0, 0, [], 0), PartitionInfo(0, 0, 0, 0, 0), FatType(FAT_16, 0), Layout(0, 0, 0, 0));
    if err != NO_ERROR {
      return;
    }
    var parsed := Parse(buffer[..], boot);
    if parsed.Fail? {
      return parsed.err, boot, g;
    }
    g := parsed.value;
  }

  /** On a device whose reads succeed, reading an entry of an unmodified cache succeeds and writes nothing. */
  lemma ReloadFaultless(p: FatPlace, c: FatCache, n: U32)
    requires PlaceOk(p) && CacheOk(c) && !c.mod && c.readFault == NO_ERROR
    ensures GetFatValueOf(p, c, n).err == NO_ERROR
    ensures GetFatValueOf(p, c, n).cache.disk == c.disk && !GetFatValueOf(p, c, n).cache.mod
  {
  }

  // ------------------------------------------------------------- the driver

  /**
   * `FatFS`: the block device it drives, the FAT buffer, the current
   * directory's metadata, and the numbers mounting stores. The FAT buffer
   * and the device present the FAT as `Cache()`; every FAT operation below
   * is proved to do to that cache what the function of the same name above
   * does.
   */
  class FatFS {
    const device: BlockStorage.Device
    const fat: array<Byte>
    const dirMeta: BlockStorage.MetaData
    var mounted: bool
    var fatMod: bool
    var curFatSector: U32
    var fsType: nat
    var entriesShift: nat
    var clusterShift: nat
    var fatStart: U32
    var fatSize: U32
    var rootDirSectors: nat
    var firstDataAddr: U32
    var rootAddr: U32
    var rootCluster: U32
    var dirFirstCluster: U32
    var nextFileId: nat
    var volumeLabel: seq<Byte>

    ghost predicate Valid()
      reads this, device
    {
      fat.Length == SECTOR && device.Valid() && (mounted ==> PlaceOk(Place()))
    }

    /** Where the mounted FAT lies. */
    function Place(): FatPlace
      reads this
    {
      FatPlace(fatStart, fatSize, fsType, entriesShift)
    }

    /** The FAT cache the driver holds: the device's blocks and faults, the loaded sector, the buffer, its flag. */
    function Cache(): (c: FatCache)
      reads this, device, fat
      ensures Valid() ==> CacheOk(c)
    {
      FatCache(device.blocks, device.readFault, device.writeFault, curFatSector, fat[..], fatMod)
    }

    /** The constructor: the driver uses `fatBuffer` for the FAT and is not mounted. */
    constructor (device: BlockStorage.Device, fatBuffer: array<Byte>)
      requires device.Valid() && fatBuffer.Length == SECTOR
      ensures Valid() && this.device == device && fat == fatBuffer && fresh(dirMeta)
      ensures !mounted && !fatMod
    {
      this.device := device;
      fat := fatBuffer;
      dirMeta := new BlockStorage.MetaData();
      mounted := false;
      fatMod := false;
      curFatSector := 0;
      nextFileId := 0;
    }

    /** `get_fs_type`: FAT16 or FAT32 once mounted. */
    method FsType() returns (t: nat)
      requires Valid()
      ensures t == fsType && (mounted ==> t == FAT_16 || t == FAT_32)
    {
      return fsType;
    }

    /** `flush_fat`, as `FlushOf` describes it. */
    method FlushFat() returns (err: ErrorCode)
      requires Valid()
      modifies this`fatMod, device`blocks
      ensures Valid() && Done(err, Cache()) == FlushOf(Place(), old(Cache()))
    {
      if fatMod {
        err := device.WriteDataBlock(fatStart + curFatSector, fat);
        if err != NO_ERROR {
          return;
        }
        err := device.WriteDataBlock(fatStart + curFatSector + fatSize, fat);
        if err != NO_ERROR {
          return;
        }
        fatMod := false;
      }
      return NO_ERROR;
    }

    /** `get_fat_value`, as `GetFatValueOf` describes it. */
    method GetFatValue(n: U32) returns (err: ErrorCode, value: U32)
      requires Valid() && PlaceOk(Place())
      modifies this`fatMod, this`curFatSector, device`blocks, fat
      ensures Valid() && Read(err, Cache(), value) == GetFatValueOf(Place(), old(Cache()), n)
    {
      var p := Place();
      var s := n / PerSector(p);
      if s != curFatSector {
        err := LoadFatSector(p, s);
        if err != NO_ERROR {
          return err, 0;
        }
      }
      return NO_ERROR, EntryOf(fat[..], fsType, n % PerSector(p));
    }

    /** The loaded sector is stored if modified and FAT sector `s` is read into the buffer, as `ReloadOf` describes it. */
    method LoadFatSector(p: FatPlace, s: U32) returns (err: ErrorCode)
      requires Valid() && p == Place() && PlaceOk(p)
      modifies this`fatMod, this`curFatSector, device`blocks, fat
      ensures Valid() && Place() == p && Done(err, Cache()) == ReloadOf(p, old(Cache()), s)
    {
      ghost var f := FlushOf(p, Cache()).cache.(cur := s);
      var _ := FlushFat();
      curFatSector := s;
      assert Cache() == f;
      err := device.ReadDataBlock(fatStart + s, fat);
      assert err == NO_ERROR ==> fat[..] == DiskBlock(f.disk, p.fatStart + s);
    }

    /** `write_short` or `write_long` of an entry of the loaded sector, with the buffer marked modified. */
    method SetEntry(index: nat, value: U32)
      requires Valid() && PlaceOk(Place()) && index < PerSector(Place())
      modifies this`fatMod, fat
      ensures Valid() && Cache() == SetEntryOf(Place(), old(Cache()), index, value)
    {
      WriteEntry(fat, fsType, index, value);
      fatMod := true;
    }

    /** `mark_eoc` (corrected): the entry's own width is set to the end-of-chain marker. */
    method MarkEoc(index: nat)
      requires Valid() && PlaceOk(Place()) && index < PerSector(Place())
      modifies this`fatMod, fat
      ensures Valid() && Cache() == SetEntryOf(Place(), old(Cache()), index, EOC_MASK)
      ensures EntryOf(fat[..], fsType, index) == Stored(fsType, EOC_MASK)
    {
      SetEntry(index, EOC_MASK);
    }

    /** `clear_chain` (corrected), at most `links` clusters, as `ClearFrom` describes it. */
    method ClearChain(head: U32, links: nat) returns (err: ErrorCode)
      requires Valid() && PlaceOk(Place())
      modifies this`fatMod, this`curFatSector, device`blocks, fat
      ensures Valid() && Done(err, Cache()) == ClearFrom(Place(), old(Cache()), head, links)
    {
      var p := Place();
      var next: U32 := head;
      var left := links;
      while left > 0
        invariant Valid() && Place() == p
        invariant ClearFrom(p, Cache(), next, left) == ClearFrom(p, old(Cache()), head, links)
      {
        ghost var c := Cache();
        var value;
        var rest := left - 1;
        err, value := ClearOne(p, next);
        assert ClearFrom(p, c, next, left) == ClearThen(p, Read(err, Cache(), value), rest);
        if err != NO_ERROR || IsEoc(fsType, value) {
          return;
        }
        next := value;
        left := rest;
      }
      return NO_ERROR;
    }

    /** One link of `clear_chain`: the entry of `next` is read and cleared, as `ClearOneOf` describes it. */
    method ClearOne(p: FatPlace, next: U32) returns (err: ErrorCode, value: U32)
      requires Valid() && p == Place() && PlaceOk(p)
      modifies this`fatMod, this`curFatSector, device`blocks, fat
      ensures Valid() && Place() == p && Read(err, Cache(), value) == ClearOneOf(p, old(Cache()), next)
    {
      err, value := GetFatValue(next);
      if err == NO_ERROR {
        SetEntry(next % PerSector(p), 0);
      }
    }

    /** `trim_chain` (corrected), as `TrimChainOf` describes it. */
    method TrimChain(tail: U32, links: nat) returns (err: ErrorCode)
      requires Valid() && PlaceOk(Place())
      modifies this`fatMod, this`curFatSector, device`blocks, fat
      ensures Valid() && Done(err, Cache()) == TrimChainOf(Place(), old(Cache()), tail, links)
    {
      var firstToDelete;
      err, firstToDelete := GetFatValue(tail);
      if err != NO_ERROR || IsEoc(fsType, firstToDelete) {
        return;
      }
      MarkEoc(tail % PerSector(Place()));
      err := ClearChain(firstToDelete, links);
    }

    /**
     * `find_empty_space` (corrected): the first free entry from the start
     * candidate of the loaded sector on becomes the end of a chain. On a
     * device without faults it does what `FindFreeOf` describes.
     */
    method FindEmptySpace() returns (found: bool, cluster: U32)
      requires Valid() && PlaceOk(Place())
      modifies this`fatMod, device`blocks, fat
      ensures Valid() && Cache().readFault == old(Cache()).readFault && Cache().writeFault == old(Cache()).writeFault
      ensures Faultless(old(Cache())) ==>
        (if found then Allocated(cluster, Cache()) else NoneFree(Cache())) == FindFreeOf(Place(), old(Cache()))
    {
      var p := Place();
      ghost var c := Cache();
      var i := FirstFreeInBuffer(fat, p, FirstCandidate(p, curFatSector));
      var from := curFatSector + 1;
      FindFreeCases(p, c, i, from);
      if i < PerSector(p) {
        SetEntry(i, EOC_MASK);
        found, cluster := true, ClusterAt(p, curFatSector, i);
        assert Cache() == SetEntryOf(p, c, i, EOC_MASK) && Place() == p;
        return;
      }
      var _ := FlushFat();
      assert Cache() == FlushOf(p, c).cache;
      found, cluster := MarkFreeAfter(p, from);
    }

    /**
     * The search from FAT sector `from` on, over the device: the first
     * sector with a free entry has it marked as the end of a chain in both
     * FATs. On a device without faults it does what `FreeAfter` describes.
     */
    method MarkFreeAfter(p: FatPlace, from: nat) returns (found: bool, cluster: U32)
      requires Valid() && p == Place() && PlaceOk(p)
      modifies device`blocks
      ensures Valid() && Cache().readFault == old(Cache()).readFault && Cache().writeFault == old(Cache()).writeFault
      ensures Faultless(old(Cache())) ==>
        (if found then Allocated(cluster, Cache()) else NoneFree(Cache())) == FreeAfter(p, old(Cache()), from)
    {
      ghost var c := Cache();
      var t, j := NextFreeSectorOn(device, p, from);
      SearchDone(p, c.disk, c.readFault == NO_ERROR, from, t, j);
      if Faultless(c) {
        FreeAfterCases(p, c, from, t, j);
      }
      if t >= p.fatSize {
        return false, 0;
      }
      StoreMarkedOnDevice(p, t, j);
      return true, ClusterAt(p, t, j);
    }

    /** Entry `j` of FAT sector `t` is set to the end-of-chain marker on the device, in both FATs. */
    method StoreMarkedOnDevice(p: FatPlace, t: nat, j: nat)
      requires Valid() && p == Place() && PlaceOk(p) && j < PerSector(p)
      modifies device`blocks
      ensures Valid() && Cache().readFault == old(Cache()).readFault && Cache().writeFault == old(Cache()).writeFault
      ensures Faultless(old(Cache())) ==> Cache() == StoreMarked(p, old(Cache()), t, j)
    {
      var first := p.fatStart + t;
      var second := first + p.fatSize;
      var sector := MarkedSector(device, p, t, j);
      var _ := device.WriteDataBlock(first, sector);
      var _ := device.WriteDataBlock(second, sector);
    }

    /**
     * `extend_fat` (corrected): the chain whose last cluster `meta` holds is
     * grown by the first free cluster, which `meta` is told as the next one.
     * On a device without faults it does what `ExtendFatOf` describes.
     */
    method ExtendFat(meta: BlockStorage.MetaData) returns (err: ErrorCode)
      requires Valid() && PlaceOk(Place()) && meta.curTier2 < TWO_32
      modifies this`fatMod, this`curFatSector, device`blocks, fat, meta`nextTier2
      ensures Valid() && Place() == old(Place())
      ensures err != NO_ERROR ==> meta.nextTier2 == old(meta.nextTier2)
      ensures Faultless(old(Cache())) ==>
        err == ExtendFatOf(Place(), old(Cache()), meta.curTier2).err &&
        Cache() == ExtendFatOf(Place(), old(Cache()), meta.curTier2).cache &&
        (err == NO_ERROR ==> meta.nextTier2 == ExtendFatOf(Place(), old(Cache()), meta.curTier2).next)
    {
      var p := Place();
      ghost var c := Cache();
      var tail: U32 := meta.curTier2;
      var value;
      err, value := GetFatValue(tail);
      ghost var g := Cache();
      ExtendFatCases(p, c, tail, Read(err, g, value));
      if err != NO_ERROR {
        return;
      }
      if !IsEoc(fsType, value) {
        return INVALID_FAT_APPEND;
      }
      var found, next := FindEmptySpace();
      if !found {
        return EMPTY_FAT_ENTRY;
      }
      SetEntry(tail % PerSector(p), next);
      meta.nextTier2 := next;
      return NO_ERROR;
    }

    /** `extend_current_directory`: `ExtendFat` of the current directory's chain. */
    method ExtendCurrentDirectory() returns (err: ErrorCode)
      requires Valid() && PlaceOk(Place()) && dirMeta.curTier2 < TWO_32
      modifies this`fatMod, this`curFatSector, device`blocks, fat, dirMeta`nextTier2
      ensures Valid() && Place() == old(Place())
      ensures err != NO_ERROR ==> dirMeta.nextTier2 == old(dirMeta.nextTier2)
      ensures Faultless(old(Cache())) ==>
        err == ExtendFatOf(Place(), old(Cache()), dirMeta.curTier2).err &&
        Cache() == ExtendFatOf(Place(), old(Cache()), dirMeta.curTier2).cache &&
        (err == NO_ERROR ==> dirMeta.nextTier2 == ExtendFatOf(Place(), old(Cache()), dirMeta.curTier2).next)
    {
      err := ExtendFat(dirMeta);
    }

    /** `unmount`: a mounted file system stores the loaded FAT sector; the driver stays mounted. */
    method Unmount() returns (err: ErrorCode)
      requires Valid()
      modifies this`fatMod, device`blocks
      ensures Valid() && mounted == old(mounted)
      ensures old(mounted) ==> Done(err, Cache()) == FlushOf(Place(), old(Cache()))
      ensures !old(mounted) ==> err == NO_ERROR && Cache() == old(Cache())
    {
      if mounted {
        err := FlushFat();
      } else {
        err := NO_ERROR;
      }
    }

    /** The fields `mount` sets from the geometry of the boot sector. */
    ghost predicate Holds(g: Geometry)
      reads this
    {
      && FatType(fsType, entriesShift) == g.fatType
      && (clusterShift, volumeLabel) == (g.info.clusterShift, g.info.volumeLabel)
      && (fatSize, rootDirSectors) == (g.part.fatSize, g.part.rootDirSectors)
      && Layout(fatStart, firstDataAddr, rootAddr, rootCluster) == g.layout
    }

    /**
     * `mount`: refused when mounted; otherwise the boot sector is located
     * and parsed as `MountOf` describes, and `MountPartition` goes on.
     */
    method Mount(buffer: array<Byte>, partition: nat) returns (err: ErrorCode)
      requires Valid() && buffer.Length == SECTOR && buffer != fat
      modifies this, fat, buffer, dirMeta, device`blocks
      ensures Valid() && device.blocks == old(device.blocks)
      ensures old(mounted) ==> err == FILESYSTEM_ALREADY_MOUNTED && mounted
      ensures !old(mounted) ==> (mounted <==> err == NO_ERROR)
      ensures !old(mounted) && MountOf(device.blocks, device.readFault, partition).Fail? ==>
        err == MountOf(device.blocks, device.readFault, partition).err
      ensures !old(mounted) && MountOf(device.blocks, device.readFault, partition).Ok? ==>
        err == NO_ERROR && Holds(MountOf(device.blocks, device.readFault, partition).value.1) &&
        !fatMod && nextFileId == 0 && RootLoaded(buffer)
      ensures !old(mounted) && partition <= 3 ==> !fatMod && nextFileId == 0 && dirMeta.name == NAME_CWD
    {
      if mounted {
        return FILESYSTEM_ALREADY_MOUNTED;
      }
      if 3 < partition {
        return UNSUPPORTED_FILESYSTEM;
      }
      err := MountPartition(buffer, partition);
    }

    /** `mount` of a partition it accepts, while not mounted. */
    method MountPartition(buffer: array<Byte>, partition: nat) returns (err: ErrorCode)
      requires Valid() && buffer.Length == SECTOR && buffer != fat && !mounted && partition <= 3
      modifies this, fat, buffer, dirMeta, device`blocks
      ensures Valid() && device.blocks == old(device.blocks) && (mounted <==> err == NO_ERROR)
      ensures MountOf(old(device.blocks), old(device.readFault), partition).Fail? ==>
        err == MountOf(old(device.blocks), old(device.readFault), partition).err
      ensures MountOf(old(device.blocks), old(device.readFault), partition).Ok? ==>
        err == NO_ERROR && Holds(MountOf(old(device.blocks), old(device.readFault), partition).value.1) &&
        !fatMod && nextFileId == 0 && RootLoaded(buffer)
      ensures !fatMod && nextFileId == 0 && dirMeta.name == NAME_CWD
    {
      fatMod, nextFileId := false, 0;
      dirMeta.name := NAME_CWD;
      var boot, g;
      err, boot, g := Probe(device, buffer, partition);
      if err != NO_ERROR {
        return;
      }
      TakeGeometry(g);
      err := LoadRoot(buffer, g);
    }

    /** The FAT buffer is unmodified, file ids start again, and the fields take the geometry `common_boot_sector_parser` to `store_root_info` found. */
    method TakeGeometry(g: Geometry)
      requires Valid() && !mounted && EntryLayout(g.fatType.fsType, g.fatType.entriesShift)
      modifies this`fatMod, this`nextFileId, this`fsType, this`entriesShift, this`clusterShift, this`volumeLabel, this`fatSize,
               this`rootDirSectors, this`fatStart, this`firstDataAddr, this`rootAddr, this`rootCluster
      ensures Valid() && Holds(g) && PlaceOk(Place()) && !fatMod && nextFileId == 0
    {
      fatMod, nextFileId, fsType, entriesShift, clusterShift, volumeLabel, fatSize, rootDirSectors,
        fatStart, firstDataAddr, rootAddr, rootCluster :=
        false, 0, g.fatType.fsType, g.fatType.entriesShift, g.info.clusterShift, g.info.volumeLabel,
        g.part.fatSize, g.part.rootDirSectors, g.layout.fatStart, g.layout.firstDataAddr, g.layout.rootAddr, g.layout.rootCluster;
    }

    /**
     * The state `read_fat_and_root_sectors` leaves: the root directory's
     * first sector in `buffer`, and the root entered as `RootEntered` says.
     */
    ghost predicate RootLoaded(buffer: array<Byte>)
      requires Valid() && buffer.Length == SECTOR
      reads this, device, fat, buffer, dirMeta
    {
      buffer[..] == DiskBlock(device.blocks, rootAddr) && RootEntered()
    }

    /**
     * The root is the current directory, at its first entry; on FAT16 the
     * first FAT sector is loaded and the root marked as having no cluster;
     * on FAT32 the root's next cluster was read from the FAT as
     * `get_fat_value` reads it, starting from the first FAT sector.
     */
    ghost predicate RootEntered()
      requires Valid()
      reads this, device, fat, dirMeta
    {
      && dirMeta.curTier2Addr == rootAddr && dirMeta.curTier1Offset == 0 && dirMeta.curTier2 == dirFirstCluster
      && (fsType == FAT_16 ==> dirFirstCluster == TWO_32 - 1 && curFatSector == 0 && fat[..] == DiskBlock(device.blocks, fatStart))
      && (fsType == FAT_32 ==>
            var first := FatCache(device.blocks, NO_ERROR, device.writeFault, 0, DiskBlock(device.blocks, fatStart), false);
            PlaceOk(Place()) && dirFirstCluster == rootCluster &&
            GetFatValueOf(Place(), first, rootCluster) == Read(NO_ERROR, Cache(), GetFatValueOf(Place(), first, rootCluster).value) &&
            dirMeta.nextTier2 == GetFatValueOf(Place(), first, rootCluster).value)
    }

    /**
     * `read_fat_and_root_sectors`: the first FAT sector is loaded, the root
     * directory's first sector is read into `buffer`, the root becomes the
     * current directory and the driver is mounted.
     */
    method LoadRoot(buffer: array<Byte>, ghost g: Geometry) returns (err: ErrorCode)
      requires Valid() && buffer.Length == SECTOR && buffer != fat && !mounted && !fatMod && PlaceOk(Place()) && Holds(g)
      modifies this`mounted, this`curFatSector, this`dirFirstCluster, this`fatMod, fat, buffer, device`blocks,
               dirMeta`curTier2Addr, dirMeta`curTier1Offset, dirMeta`curTier2, dirMeta`nextTier2
      ensures Valid() && device.blocks == old(device.blocks) && Place() == old(Place()) && !fatMod && Holds(g)
      ensures nextFileId == old(nextFileId)
      ensures device.readFault != NO_ERROR ==> err == device.readFault && !mounted
      ensures device.readFault == NO_ERROR ==> err == NO_ERROR && mounted && RootLoaded(buffer)
    {
      err := ReadFirstSectors(buffer);
      if err != NO_ERROR {
        return;
      }
      EnterRoot();
      mounted := true;
    }

    /** The first FAT sector and the root directory's first sector are read. */
    method ReadFirstSectors(buffer: array<Byte>) returns (err: ErrorCode)
      requires Valid() && buffer.Length == SECTOR && buffer != fat
      modifies this`curFatSector, fat, buffer
      ensures Valid()
      ensures device.readFault != NO_ERROR ==> err == device.readFault
      ensures device.readFault == NO_ERROR ==>
        err == NO_ERROR && curFatSector == 0 && fat[..] == DiskBlock(device.blocks, fatStart) &&
        buffer[..] == DiskBlock(device.blocks, rootAddr)
    {
      err := device.ReadDataBlock(fatStart, fat);
      if err != NO_ERROR {
        return;
      }
      curFatSector := 0;
      err := device.ReadDataBlock(rootAddr, buffer);
    }

    /** The root becomes the current directory, once the first FAT sector is loaded. */
    method EnterRoot()
      requires Valid() && PlaceOk(Place()) && device.readFault == NO_ERROR && !fatMod
      requires curFatSector == 0 && fat[..] == DiskBlock(device.blocks, fatStart)
      modifies this`curFatSector, this`dirFirstCluster, this`fatMod, fat, device`blocks,
               dirMeta`curTier2Addr, dirMeta`curTier1Offset, dirMeta`curTier2, dirMeta`nextTier2
      ensures Valid() && device.blocks == old(device.blocks) && !fatMod && RootEntered()
    {
      ghost var first := Cache();
      dirMeta.curTier2Addr := rootAddr;
      dirMeta.curTier1Offset := 0;
      if fsType == FAT_16 {
        dirFirstCluster := TWO_32 - 1;
        dirMeta.curTier2 := TWO_32 - 1;
      } else {
        dirFirstCluster := rootCluster;
        dirMeta.curTier2 := rootCluster;
        var err, next := GetFatValue(rootCluster);
        ReloadFaultless(Place(), first, rootCluster);
        dirMeta.nextTier2 := next;
      }
    }
  }
}
