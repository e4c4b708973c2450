/**
 * A FAT16 reader written from the on-disk format alone (Microsoft FAT32 File System Specification 1.03, sections "FAT
 * Data Structure" and "FAT Long Directory Entries"), with none of the writer's constants or functions, and the proof
 * that it recovers what the writer stored.
 */
module FatReader {
  import opened Wrappers
  import opened Utf8
  import opened Utf16
  import opened Sequences
  import opened FatImage

  // ----- The reader -----

  function U16At(b: seq<byte>, i: nat): nat
    requires i + 2 <= |b|
  {
    (b[i] as int) + 0x100 * (b[i + 1] as int)
  }

  function U32At(b: seq<byte>, i: nat): nat
    requires i + 4 <= |b|
  {
    U16At(b, i) + 0x1_0000 * U16At(b, i + 2)
  }

  /** What a mount learns from the boot sector: positions in sectors, sizes in sectors. */
  datatype Volume = Volume(fats: nat, fatStart: nat, fatSectors: nat, rootStart: nat, rootEntries: nat,
                           dataStart: nat, perCluster: nat, clusters: nat)

  const SECTOR := 512

  predicate VolumeFits(disk: seq<byte>, v: Volume) {
    && v.fats > 0 && v.perCluster > 0
    && v.fatStart + v.fats * v.fatSectors == v.rootStart
    && SECTOR * v.rootStart + 32 * v.rootEntries <= SECTOR * v.dataStart
    && SECTOR * (v.dataStart + v.clusters * v.perCluster) <= |disk|
    && SECTOR * v.fatSectors >= 2 * (v.clusters + 2)
  }

  function Quotient(n: nat, d: nat): (q: nat)
    requires d > 0
    ensures q * d <= n < q * d + d
  {
    n / d
  }

  /** The volume these boot fields describe, if its regions lie in order inside the disk. */
  function Layout(disk: seq<byte>, perCluster: nat, fatStart: nat, fats: nat, rootEntries: nat, total: nat,
                  fatSectors: nat): (v: Option<Volume>)
    ensures v.Some? ==> VolumeFits(disk, v.value)
  {
    var rootStart := fatStart + fats * fatSectors;
    var dataStart := rootStart + (32 * rootEntries + SECTOR - 1) / SECTOR;
    if perCluster == 0 || fats == 0 || SECTOR * total > |disk| || dataStart > total then None
    else
      var clusters := Quotient(total - dataStart, perCluster);
      if SECTOR * fatSectors < 2 * (clusters + 2) then None
      else Some(Volume(fats, fatStart, fatSectors, rootStart, rootEntries, dataStart, perCluster, clusters))
  }

  /** Accepts a volume of 512-byte sectors. */
  function Mount(disk: seq<byte>): (v: Option<Volume>)
    ensures v.Some? ==> VolumeFits(disk, v.value)
  {
    if |disk| < SECTOR || disk[510] != 0x55 || disk[511] != 0xaa || U16At(disk, 11) != SECTOR then None
    else Layout(disk, disk[13], U16At(disk, 14), disk[16], U16At(disk, 17), U16At(disk, 19), U16At(disk, 22))
  }

  /** The thirteen units of a long-name entry. */
  function RawUnits(entry: seq<byte>): (u: seq<unit>)
    requires |entry| == 32
    ensures |u| == 13
  {
    seq(13, slot requires 0 <= slot < 13 =>
      U16At(entry, if slot < 5 then 1 + 2 * slot else if slot < 11 then 4 + 2 * slot else 6 + 2 * slot))
  }

  function UntilZero(u: seq<unit>): seq<unit> {
    if u == [] || u[0] == 0 then [] else [u[0]] + UntilZero(u[1..])
  }

  /** Units of a long-name entry up to the terminator. */
  function EntryUnits(entry: seq<byte>): seq<unit>
    requires |entry| == 32
  {
    UntilZero(RawUnits(entry))
  }

  /**
   * Long-name entries seen so far: the ordinal of the last one, their checksum, and the tail of the name they spell.
   */
  datatype Pending = Pending(ordinal: nat, checksum: byte, name: seq<unit>)

  const NOTHING := Pending(0, 0, [])

  predicate HasBit(value: byte, bit: nat)
    requires bit > 0
  {
    value / bit % 2 == 1
  }

  function SeeLongName(entry: seq<byte>, pending: Pending): Pending
    requires |entry| == 32
  {
    var sequence, checksum := entry[0], entry[13];
    if HasBit(sequence, 0x40) then Pending(sequence - 0x40, checksum, EntryUnits(entry))
    else if pending.ordinal == sequence + 1 && pending.checksum == checksum then
      Pending(sequence, checksum, EntryUnits(entry) + pending.name)
    else NOTHING
  }

  /** The checksum that ties long-name entries to a short name: byte after byte, rotate right by one bit and add. */
  function NameSum(name: seq<byte>, sum: byte): byte {
    if name == [] then sum else NameSum(name[1..], AddByte(RotateRight(sum), name[0]))
  }

  function RotateRight(b: byte): byte {
    (if HasBit(b, 1) then 0x80 else 0) + b / 2
  }

  /** Addition of unsigned bytes wraps around. */
  function AddByte(a: byte, b: byte): byte {
    if (a as int) + (b as int) < 0x100 then a + b else (a as int) + (b as int) - 0x100
  }

  datatype FoundFile = FoundFile(cluster: nat, size: nat)

  /** Scans directory entries for a file with this long name. */
  function FindFile(directory: seq<byte>, pending: Pending, name: seq<unit>): Option<FoundFile> {
    if |directory| < 32 then None
    else
      var entry, rest := directory[..32], directory[32..];
      if entry[0] == 0 then None
      else if entry[0] == 0xE5 then FindFile(rest, NOTHING, name)
      else if entry[11] == 0x0f then FindFile(rest, SeeLongName(entry, pending), name)
      else if HasBit(entry[11], 0x08) then FindFile(rest, NOTHING, name)
      else if pending.ordinal == 1 && pending.checksum == NameSum(entry[..11], 0) && pending.name == name then
        Some(FoundFile(U16At(entry, 26), U32At(entry, 28)))
      else FindFile(rest, NOTHING, name)
  }

  /** Follows a cluster chain to its end mark; None when it leaves the volume or runs longer than the fuel. */
  function Chain(fat: seq<byte>, clusters: nat, cluster: nat, fuel: nat): (chain: Option<seq<nat>>)
    requires |fat| >= 2 * (clusters + 2)
    ensures chain.Some? ==> forall c :: c in chain.value ==> 2 <= c < clusters + 2
    decreases fuel
  {
    if fuel == 0 || cluster < 2 || cluster >= clusters + 2 then None
    else
      var next := U16At(fat, 2 * cluster);
      if next >= 0xfff8 then Some([cluster])
      else
        match Chain(fat, clusters, next, fuel - 1)
        case None => None
        case Some(rest) => Some([cluster] + rest)
  }

  /** First sector of unit c of a region of equal units. */
  function UnitStart(start: nat, size: nat, c: nat): nat {
    start + c * size
  }

  lemma UnitStartStep(start: nat, size: nat, c: nat, count: nat)
    requires c < count
    ensures UnitStart(start, size, c + 1) == UnitStart(start, size, c) + size <= start + count * size
  {
    assert count * size == (count - c - 1) * size + (c + 1) * size;
  }

  function ClusterData(disk: seq<byte>, v: Volume, chain: seq<nat>): seq<byte>
    requires VolumeFits(disk, v)
    requires forall c :: c in chain ==> 2 <= c < v.clusters + 2
  {
    if chain == [] then []
    else
      assert chain[0] in chain && forall c :: c in chain[1..] ==> c in chain;
      UnitStartStep(v.dataStart, v.perCluster, chain[0] - 2, v.clusters);
      var start := UnitStart(v.dataStart, v.perCluster, chain[0] - 2);
      disk[SECTOR * start..SECTOR * (start + v.perCluster)] + ClusterData(disk, v, chain[1..])
  }

  function FatCopy(disk: seq<byte>, v: Volume, copy: nat): (fat: seq<byte>)
    requires VolumeFits(disk, v) && copy < v.fats
    ensures |fat| == SECTOR * v.fatSectors
  {
    UnitStartStep(v.fatStart, v.fatSectors, copy, v.fats);
    var start := UnitStart(v.fatStart, v.fatSectors, copy);
    disk[SECTOR * start..SECTOR * (start + v.fatSectors)]
  }

  function RootOf(disk: seq<byte>, v: Volume): (directory: seq<byte>)
    requires VolumeFits(disk, v)
    ensures |directory| == 32 * v.rootEntries
  {
    disk[SECTOR * v.rootStart..SECTOR * v.rootStart + 32 * v.rootEntries]
  }

  /** Reads the file with this long name, following the chain in FAT copy `copy`. */
  function ReadFile(disk: seq<byte>, name: seq<unit>, copy: nat): Option<seq<byte>> {
    match Mount(disk)
    case None => None
    case Some(v) =>
      if copy >= v.fats then None
      else
        var directory := RootOf(disk, v);
        match FindFile(directory, NOTHING, name)
        case None => None
        case Some(file) =>
          var fat := FatCopy(disk, v, copy);
          match Chain(fat, v.clusters, file.cluster, |fat|)
          case None => None
          case Some(chain) =>
            var data := ClusterData(disk, v, chain);
            if file.size <= |data| then Some(data[..file.size]) else None
  }

  // ----- Little-endian numbers -----

  lemma LittleEndianU16(b: seq<byte>, i: nat, value: u16)
    requires i + 2 <= |b| && b[i] == LittleEndian(value, 0) && b[i + 1] == LittleEndian(value, 1)
    ensures U16At(b, i) == value
  {
  }

  lemma LittleEndianU32(b: seq<byte>, i: nat, value: u32)
    requires i + 4 <= |b| && forall k :: i <= k < i + 4 ==> b[k] == LittleEndian(value, k - i)
    ensures U32At(b, i) == value
  {
    assert value / 0x1_0000 == value / 0x100 / 0x100 && value / 0x100_0000 == value / 0x1_0000 / 0x100;
  }

  // ----- Regions of the image -----

  lemma ImageRegions(content: seq<byte>)
    requires |content| <= CAPACITY
    ensures var image := Image(content); var fat := Fat(Clusters(|content|));
            && image[..FAT_START] == BootSector()
            && image[FAT_START..FAT_START + FAT_BYTES] == fat
            && image[FAT_START + FAT_BYTES..ROOT_START] == fat
            && image[ROOT_START..DATA_START] == RootDirectory(KeyFileName(), |content|)
            && image[DATA_START..DATA_START + |content|] == content
  {
    var fat := Fat(Clusters(|content|));
    var root := RootDirectory(KeyFileName(), |content|);
    Slices(BootSector(), fat, fat, root, content, Zeros(IMAGE_BYTES - DATA_START - |content|));
  }

  lemma Slices(a: seq<byte>, b: seq<byte>, c: seq<byte>, d: seq<byte>, e: seq<byte>, f: seq<byte>)
    ensures var s := a + b + c + d + e + f; var p1 := |a|; var p2 := p1 + |b|; var p3 := p2 + |c|; var p4 := p3 + |d|;
        var p5 := p4 + |e|;
            && |s| == p5 + |f|
            && s[..p1] == a && s[p1..p2] == b && s[p2..p3] == c && s[p3..p4] == d && s[p4..p5] == e
  {
  }

  const BOOTSTRAP_VOLUME := Volume(FAT_COUNT, RESERVED_SECTORS, SECTORS_PER_FAT,
                                   RESERVED_SECTORS + FAT_COUNT * SECTORS_PER_FAT,
                                   ROOT_DIRECTORY_ENTRIES, DATA_START_SECTOR, SECTORS_PER_CLUSTER, DATA_CLUSTERS)

  lemma BootFields()
    ensures var b := BootSector();
            && U16At(b, 11) == BYTES_PER_SECTOR && b[13] == SECTORS_PER_CLUSTER
            && U16At(b, 14) == RESERVED_SECTORS && b[16] == FAT_COUNT
            && U16At(b, 17) == ROOT_DIRECTORY_ENTRIES && U16At(b, 19) == TOTAL_SECTORS
            && U16At(b, 22) == SECTORS_PER_FAT && b[510] == 0x55 && b[511] == 0xaa
  {
  }

  /** The boot sector describes the layout the rest of the image follows. */
  lemma ImageMounts(content: seq<byte>)
    requires |content| <= CAPACITY
    ensures Mount(Image(content)) == Some(BOOTSTRAP_VOLUME)
  {
    var image := Image(content);
    ImageRegions(content);
    BootFields();
    var boot := BootSector();
    assert forall i :: 0 <= i < FAT_START ==> image[i] == image[..FAT_START][i] == boot[i];
    assert U16At(image, 11) == U16At(boot, 11) && U16At(image, 14) == U16At(boot, 14);
    assert U16At(image, 17) == U16At(boot, 17) && U16At(image, 19) == U16At(boot, 19)
        && U16At(image, 22) == U16At(boot, 22);
  }

  // ----- The directory -----

  ghost predicate NoZero(name: seq<unit>) {
    forall i :: 0 <= i < |name| ==> name[i] != 0
  }

  lemma SlotValue(sequence: byte, name: seq<unit>, checksum: byte, slot: nat)
    requires slot < CHUNK_UNITS
    ensures U16At(LongNameEntry(sequence, name, checksum), SlotOffset(slot)) == NameSlot(name, slot)
  {
    SlotBytes(sequence, name, checksum, slot);
    LittleEndianU16(LongNameEntry(sequence, name, checksum), SlotOffset(slot), NameSlot(name, slot));
  }

  lemma {:induction false} UntilZeroOfSlots(u: seq<unit>, name: seq<unit>)
    requires |name| <= |u| && NoZero(name) && u[..|name|] == name && (|name| < |u| ==> u[|name|] == 0)
    ensures UntilZero(u) == name
  {
    if name != [] {
      assert u[0] == name[0];
      UntilZeroOfSlots(u[1..], name[1..]);
    }
  }

  /** A long-name entry gives back the chunk it was written from, whatever its length. */
  lemma LongNameRoundTrip(sequence: byte, name: seq<unit>, checksum: byte)
    requires |name| <= CHUNK_UNITS && NoZero(name)
    ensures EntryUnits(LongNameEntry(sequence, name, checksum)) == name
  {
    var u := RawUnits(LongNameEntry(sequence, name, checksum));
    forall k | 0 <= k < CHUNK_UNITS
      ensures u[k] == NameSlot(name, k)
    {
      SlotValue(sequence, name, checksum, k);
    }
    UntilZeroOfSlots(u, name);
  }

  lemma LongNameHeader(sequence: byte, name: seq<unit>, checksum: byte)
    ensures var entry := LongNameEntry(sequence, name, checksum);
        entry[0] == sequence && entry[11] == 0x0f && entry[13] == checksum
  {
  }

  lemma VolumeLabelHeader()
    ensures VolumeLabelEntry()[0] == 0x4d && VolumeLabelEntry()[11] == 0x08
  {
  }

  lemma ShortEntryFields(size: u32)
    ensures var entry := ShortEntry(size);
            entry[0] == 0x41 && entry[..11] == SHORT_NAME && entry[11] == 0x20 && U16At(entry, 26) == 2
              && U32At(entry, 28) == size
  {
    LittleEndianU16(ShortEntry(size), 26, 2);
    LittleEndianU32(ShortEntry(size), 28, size);
  }

  lemma EntryOfBoth(before: seq<byte>, last: seq<byte>, n: nat, e: nat, entry: seq<byte>)
    requires |before| == 32 * n && |last| == 32 && e <= n
    requires if e < n then before[32 * e..32 * e + 32] == entry else last == entry
    ensures (before + last)[32 * e..32 * e + 32] == entry
  {
    if e < n {
      SliceFront(before, last, 32 * e, 32 * e + 32);
    } else {
      SliceBack(before, last);
    }
  }

  lemma EntryOfFront(front: seq<byte>, rest: seq<byte>, e: nat, entry: seq<byte>)
    requires 32 * e + 32 <= |front| && front[32 * e..32 * e + 32] == entry
    ensures (front + rest)[32 * e..32 * e + 32] == entry
  {
    SliceFront(front, rest, 32 * e, 32 * e + 32);
  }

  lemma {:induction false} RootEntryAt(name: seq<unit>, size: nat, n: nat, e: nat)
    requires |name| <= CHUNK_UNITS * 20 && e < n
    ensures RootEntries(name, size, n)[32 * e..32 * e + 32] == RootEntry(name, size, e)
  {
    if e < n - 1 {
      RootEntryAt(name, size, n - 1, e);
    }
    EntryOfBoth(RootEntries(name, size, n - 1), RootEntry(name, size, n - 1), n - 1, e, RootEntry(name, size, e));
  }

  lemma DirectoryEntry(name: seq<unit>, size: nat, e: nat)
    requires |name| <= CHUNK_UNITS * 20 && e <= DivCeil(|name|, CHUNK_UNITS) + 1
    ensures RootDirectory(name, size)[32 * e..32 * e + 32] == RootEntry(name, size, e)
  {
    var written := DivCeil(|name|, CHUNK_UNITS) + 2;
    RootEntryAt(name, size, written, e);
    EntryOfFront(RootEntries(name, size, written), Zeros(32 * (ROOT_DIRECTORY_ENTRIES - written)), e,
                 RootEntry(name, size, e));
  }

  lemma {:induction false} NameSumSnoc(name: seq<byte>, last: byte, sum: byte)
    ensures NameSum(name + [last], sum) == AddByte(RotateRight(NameSum(name, sum)), last)
  {
    if name == [] {
      assert (name + [last])[1..] == [];
    } else {
      assert (name + [last])[1..] == name[1..] + [last];
      NameSumSnoc(name[1..], last, AddByte(RotateRight(sum), name[0]));
    }
  }

  /** The writer computes the checksum the reader expects. */
  lemma {:induction false} ChecksumsAgree(name: seq<byte>)
    ensures NameSum(name, 0) == ShortNameChecksum(name)
  {
    if name != [] {
      var n := |name| - 1;
      assert name == name[..n] + [name[n]];
      ChecksumsAgree(name[..n]);
      NameSumSnoc(name[..n], name[n], 0);
    }
  }

  /** What the reader holds when it reaches entry e. */
  function PendingBefore(name: seq<unit>, e: nat): Pending
    requires 1 <= e <= DivCeil(|name|, CHUNK_UNITS) + 1
  {
    var left := DivCeil(|name|, CHUNK_UNITS) + 1 - e;
    if e == 1 then NOTHING else Pending(left + 1, ShortNameChecksum(SHORT_NAME), name[left * CHUNK_UNITS..])
  }

  lemma ChunkJoins(name: seq<unit>, ordinal: nat)
    requires 0 < |name| <= CHUNK_UNITS * 20 && 1 <= ordinal <= DivCeil(|name|, CHUNK_UNITS)
    ensures ordinal == DivCeil(|name|, CHUNK_UNITS) ==> NameChunk(name, ordinal) == name[(ordinal - 1) * CHUNK_UNITS..]
    ensures ordinal < DivCeil(|name|, CHUNK_UNITS) ==>
              NameChunk(name, ordinal) + name[ordinal * CHUNK_UNITS..] == name[(ordinal - 1) * CHUNK_UNITS..]
  {
  }

  lemma LongNameSeen(name: seq<unit>, e: nat, entry: seq<byte>)
    requires 0 < |name| <= CHUNK_UNITS * 20 && NoZero(name) && 1 <= e <= DivCeil(|name|, CHUNK_UNITS)
    requires |entry| == 32 && entry[0] == Sequence(name, DivCeil(|name|, CHUNK_UNITS) + 1 - e)
    requires entry[13] == ShortNameChecksum(SHORT_NAME)
    requires EntryUnits(entry) == NameChunk(name, DivCeil(|name|, CHUNK_UNITS) + 1 - e)
    ensures SeeLongName(entry, PendingBefore(name, e)) == PendingBefore(name, e + 1)
  {
    ChunkJoins(name, DivCeil(|name|, CHUNK_UNITS) + 1 - e);
  }

  lemma {:induction false} FindFromEntry(directory: seq<byte>, name: seq<unit>, size: u32, e: nat)
    requires 0 < |name| <= CHUNK_UNITS * 20 && NoZero(name) && 1 <= e <= DivCeil(|name|, CHUNK_UNITS) + 1
    requires |directory| >= 32 * (DivCeil(|name|, CHUNK_UNITS) + 2)
    requires forall k :: 0 <= k <= DivCeil(|name|, CHUNK_UNITS) + 1 ==>
        directory[32 * k..32 * k + 32] == RootEntry(name, size, k)
    ensures FindFile(directory[32 * e..], PendingBefore(name, e), name) == Some(FoundFile(2, size))
    decreases DivCeil(|name|, CHUNK_UNITS) + 1 - e
  {
    var count := DivCeil(|name|, CHUNK_UNITS);
    var entry, rest := RootEntry(name, size, e), directory[32 * e..];
    assert rest[..32] == directory[32 * e..32 * e + 32] == entry;
    assert rest[32..] == directory[32 * (e + 1)..];
    if e <= count {
      var ordinal := count + 1 - e;
      var chunk := NameChunk(name, ordinal);
      LongNameHeader(Sequence(name, ordinal), chunk, ShortNameChecksum(SHORT_NAME));
      LongNameRoundTrip(Sequence(name, ordinal), chunk, ShortNameChecksum(SHORT_NAME));
      LongNameSeen(name, e, entry);
      FindFromEntry(directory, name, size, e + 1);
    } else {
      ShortEntryFields(size);
      ChecksumsAgree(SHORT_NAME);
      assert name[0..] == name;
    }
  }

  lemma FindsFileIn(directory: seq<byte>, name: seq<unit>, size: u32)
    requires 0 < |name| <= CHUNK_UNITS * 20 && NoZero(name)
    requires |directory| >= 32 * (DivCeil(|name|, CHUNK_UNITS) + 2)
    requires forall k :: 0 <= k <= DivCeil(|name|, CHUNK_UNITS) + 1 ==>
        directory[32 * k..32 * k + 32] == RootEntry(name, size, k)
    ensures FindFile(directory, NOTHING, name) == Some(FoundFile(2, size))
  {
    SkipsLabel(directory, name, size);
    FindFromEntry(directory, name, size, 1);
    assert PendingBefore(name, 1) == NOTHING;
  }

  /** The directory scan finds the file under its long name, with its first cluster and size. */
  lemma FindsFile(name: seq<unit>, size: u32)
    requires 0 < |name| <= CHUNK_UNITS * 20 && NoZero(name)
    ensures FindFile(RootDirectory(name, size), NOTHING, name) == Some(FoundFile(2, size))
  {
    forall k | 0 <= k <= DivCeil(|name|, CHUNK_UNITS) + 1
      ensures RootDirectory(name, size)[32 * k..32 * k + 32] == RootEntry(name, size, k)
    {
      DirectoryEntry(name, size, k);
    }
    FindsFileIn(RootDirectory(name, size), name, size);
  }

  lemma SkipsLabel(directory: seq<byte>, name: seq<unit>, size: nat)
    requires |name| <= CHUNK_UNITS * 20 && |directory| >= 32
        && directory[32 * 0..32 * 0 + 32] == RootEntry(name, size, 0)
    ensures FindFile(directory, NOTHING, name) == FindFile(directory[32 * 1..], NOTHING, name)
  {
    VolumeLabelHeader();
    assert directory[..32] == VolumeLabelEntry();
  }

  // ----- The cluster chain -----

  lemma FatEntryRead(clusters: nat, slot: nat)
    requires clusters <= DATA_CLUSTERS && 2 * slot + 2 <= FAT_BYTES
    ensures U16At(Fat(clusters), 2 * slot) == FatEntry(clusters, slot)
  {
    LittleEndianU16(Fat(clusters), 2 * slot, FatEntry(clusters, slot));
  }

  function Run(first: nat, last: nat): (r: seq<nat>)
    requires first <= last
    ensures |r| == last - first && forall i :: 0 <= i < |r| ==> r[i] == first + i
  {
    seq(last - first, i requires 0 <= i => first + i)
  }

  lemma {:induction false} ChainFrom(clusters: nat, cluster: nat, fuel: nat)
    requires clusters <= DATA_CLUSTERS && 2 <= cluster < clusters + 2 && fuel >= clusters + 2 - cluster
    ensures Chain(Fat(clusters), DATA_CLUSTERS, cluster, fuel) == Some(Run(cluster, clusters + 2))
    decreases clusters + 2 - cluster
  {
    FatEntryRead(clusters, cluster);
    if cluster < clusters + 1 {
      ChainFrom(clusters, cluster + 1, fuel - 1);
      assert [cluster] + Run(cluster + 1, clusters + 2) == Run(cluster, clusters + 2);
    } else {
      assert [cluster] == Run(cluster, clusters + 2);
    }
  }

  lemma {:induction false} RunData(disk: seq<byte>, v: Volume, first: nat, last: nat)
    requires VolumeFits(disk, v) && 2 <= first <= last <= v.clusters + 2
    ensures var start, end := UnitStart(v.dataStart, v.perCluster, first - 2),
        UnitStart(v.dataStart, v.perCluster, last - 2);
            start <= end && SECTOR * end <= |disk|
              && ClusterData(disk, v, Run(first, last)) == disk[SECTOR * start..SECTOR * end]
    decreases last - first
  {
    if first < last {
      RunData(disk, v, first + 1, last);
      assert Run(first, last)[1..] == Run(first + 1, last);
      UnitStartStep(v.dataStart, v.perCluster, first - 2, v.clusters);
      var start, end := UnitStart(v.dataStart, v.perCluster, first - 2), UnitStart(v.dataStart, v.perCluster, last - 2);
      var middle := start + v.perCluster;
      assert disk[SECTOR * start..SECTOR * end] == disk[SECTOR * start..SECTOR * middle]
          + disk[SECTOR * middle..SECTOR * end];
    } else if first - 2 < v.clusters {
      UnitStartStep(v.dataStart, v.perCluster, first - 2, v.clusters);
    }
  }

  // ----- Main result -----

  lemma ImageFat(content: seq<byte>, copy: nat)
    requires |content| <= CAPACITY && copy < FAT_COUNT && VolumeFits(Image(content), BOOTSTRAP_VOLUME)
    ensures FatCopy(Image(content), BOOTSTRAP_VOLUME, copy) == Fat(Clusters(|content|))
  {
    ImageRegions(content);
    var image, fat := Image(content), FatCopy(Image(content), BOOTSTRAP_VOLUME, copy);
    if copy == 0 {
      assert fat == image[FAT_START..FAT_START + FAT_BYTES];
    } else {
      assert fat == image[FAT_START + FAT_BYTES..ROOT_START];
    }
  }

  lemma ImageRoot(content: seq<byte>)
    requires |content| <= CAPACITY && VolumeFits(Image(content), BOOTSTRAP_VOLUME)
    ensures RootOf(Image(content), BOOTSTRAP_VOLUME) == RootDirectory(KeyFileName(), |content|)
  {
    ImageRegions(content);
  }

  lemma ImageData(content: seq<byte>)
    requires |content| <= CAPACITY && VolumeFits(Image(content), BOOTSTRAP_VOLUME)
    ensures var data := ClusterData(Image(content), BOOTSTRAP_VOLUME, Run(2, Clusters(|content|) + 2));
            |content| <= |data| && data[..|content|] == content
  {
    ImageRegions(content);
    var image, clusters := Image(content), Clusters(|content|);
    RunData(image, BOOTSTRAP_VOLUME, 2, clusters + 2);
    var data := image[DATA_START..DATA_START + clusters * CLUSTER_BYTES];
    assert data[..|content|] == image[DATA_START..DATA_START + |content|];
  }

  /** Reading the file back from either FAT copy gives exactly what was written. */
  lemma WriteThenRead(content: seq<byte>, copy: nat)
    requires |content| <= CAPACITY && copy < FAT_COUNT
    ensures ReadFile(Image(content), Units("authorized_keys"), copy) == Some(content)
  {
    ReadsContent(content, copy);
    KeyFileNameIsText();
  }

  lemma ReadsContent(content: seq<byte>, copy: nat)
    requires |content| <= CAPACITY && copy < FAT_COUNT
    ensures ReadFile(Image(content), KeyFileName(), copy) == Some(content)
  {
    ImageMounts(content);
    ImageRoot(content);
    ImageFat(content, copy);
    ImageData(content);
    FindsFile(KeyFileName(), |content|);
    ChainFrom(Clusters(|content|), 2, |Fat(Clusters(|content|))|);
  }

  /** Different contents give different images. */
  lemma ImageInjective(a: seq<byte>, b: seq<byte>)
    requires |a| <= CAPACITY && |b| <= CAPACITY && Image(a) == Image(b)
    ensures a == b
  {
    WriteThenRead(a, 0);
    WriteThenRead(b, 0);
  }
}
