/**
 * The FAT16 bootstrap image: the byte every offset must hold, and the writer that fills one buffer with it.
 */
module FatImage {
  import opened Wrappers
  import opened Utf8
  import opened Utf16
  import opened Sequences

  const BYTES_PER_SECTOR := 512
  const SECTORS_PER_CLUSTER := 4
  const RESERVED_SECTORS := 1
  const FAT_COUNT := 2
  const SECTORS_PER_FAT := 32
  const ROOT_DIRECTORY_ENTRIES := 32
  const ROOT_DIRECTORY_SECTORS := 2
  const TOTAL_SECTORS := 32768
  const IMAGE_BYTES := TOTAL_SECTORS * BYTES_PER_SECTOR
  const DATA_START_SECTOR := RESERVED_SECTORS + FAT_COUNT * SECTORS_PER_FAT + ROOT_DIRECTORY_SECTORS

  const CLUSTER_BYTES := BYTES_PER_SECTOR * SECTORS_PER_CLUSTER
  const FAT_BYTES := SECTORS_PER_FAT * BYTES_PER_SECTOR
  const FAT_START := RESERVED_SECTORS * BYTES_PER_SECTOR
  const ROOT_START := (RESERVED_SECTORS + FAT_COUNT * SECTORS_PER_FAT) * BYTES_PER_SECTOR
  const DATA_START := DATA_START_SECTOR * BYTES_PER_SECTOR
  const DATA_CLUSTERS := (TOTAL_SECTORS - DATA_START_SECTOR) / SECTORS_PER_CLUSTER
  const CAPACITY := DATA_CLUSTERS * CLUSTER_BYTES

  const SHORT_NAME: seq<byte> := Ascii("AUTHOR~1KEY")
  const LONG_NAME: string := "authorized_keys"
  const CHUNK_UNITS := 13

  function Ascii(s: string): (b: seq<byte>)
    requires forall i :: 0 <= i < |s| ==> s[i] as int < 0x80
    ensures |b| == |s| && forall i :: 0 <= i < |s| ==> b[i] == s[i] as int
  {
    seq(|s|, i requires 0 <= i < |s| => s[i] as int)
  }

  type u16 = x: int | 0 <= x < 0x1_0000
  type u32 = x: int | 0 <= x < 0x1_0000_0000

  /** Byte k of a little-endian number of at most four bytes. */
  function LittleEndian(value: nat, k: nat): byte {
    if k == 0 then value % 0x100
    else if k == 1 then value / 0x100 % 0x100
    else if k == 2 then value / 0x1_0000 % 0x100
    else value / 0x100_0000 % 0x100
  }

  /** Rotate right by one bit, then add, modulo 256. */
  function ShortNameChecksum(name: seq<byte>): byte {
    if name == [] then 0
    else
      var checksum := ShortNameChecksum(name[..|name| - 1]);
      (checksum % 2 * 0x80 + checksum / 2 + name[|name| - 1]) % 0x100
  }

  function DivCeil(n: nat, d: nat): nat
    requires d > 0
  {
    (n + d - 1) / d
  }

  /** Clusters a content of n bytes occupies; an empty file still owns one. */
  function Clusters(n: nat): (c: nat)
    ensures 1 <= c && n <= c * CLUSTER_BYTES
    ensures c == 1 || (c - 1) * CLUSTER_BYTES < n
  {
    if n == 0 then 1 else DivCeil(n, CLUSTER_BYTES)
  }

  // ----- What each offset holds -----

  function BootByte(i: nat): byte {
    if i < 3 then [0xeb, 0x3c, 0x90][i]
    else if i < 11 then Ascii("MTNAI16 ")[i - 3]
    else if 11 <= i < 13 then LittleEndian(BYTES_PER_SECTOR, i - 11)
    else if i == 13 then SECTORS_PER_CLUSTER
    else if 14 <= i < 16 then LittleEndian(RESERVED_SECTORS, i - 14)
    else if i == 16 then FAT_COUNT
    else if 17 <= i < 19 then LittleEndian(ROOT_DIRECTORY_ENTRIES, i - 17)
    else if 19 <= i < 21 then LittleEndian(TOTAL_SECTORS, i - 19)
    else if i == 21 then 0xf8
    else if 22 <= i < 24 then LittleEndian(SECTORS_PER_FAT, i - 22)
    else if 24 <= i < 26 then LittleEndian(32, i - 24)
    else if 26 <= i < 28 then LittleEndian(64, i - 26)
    else if i == 36 then 0x80
    else if i == 38 then 0x29
    else if 39 <= i < 43 then LittleEndian(0x4d544e41, i - 39)
    else if 43 <= i < 54 then Ascii("MTNAI_BOOT ")[i - 43]
    else if 54 <= i < 62 then Ascii("FAT16   ")[i - 54]
    else if i == 510 then 0x55
    else if i == 511 then 0xaa
    else 0
  }

  /** Entry `slot` of a FAT whose only file owns clusters 2 .. clusters + 1. */
  function FatEntry(clusters: nat, slot: nat): nat {
    if slot == 0 then 0xfff8
    else if slot == 1 then 0xffff
    else if slot < clusters + 1 then slot + 1
    else if slot == clusters + 1 then 0xffff
    else 0
  }

  function FatByte(clusters: nat, i: nat): byte {
    LittleEndian(FatEntry(clusters, i / 2), i % 2)
  }

  /** Unit `slot` of a long-name entry: the name, one terminator, then filler. */
  function NameSlot(name: seq<unit>, slot: nat): u16 {
    if slot < |name| then name[slot] else if slot == |name| then 0 else 0xffff
  }

  /** Where the thirteen units of a long-name entry sit. */
  function SlotOffset(slot: nat): (offset: nat)
    requires slot < CHUNK_UNITS
    ensures 1 <= offset <= 30
  {
    if slot < 5 then 1 + 2 * slot else if slot < 11 then 14 + 2 * (slot - 5) else 28 + 2 * (slot - 11)
  }

  function LongNameByte(sequence: byte, name: seq<unit>, checksum: byte, i: nat): byte {
    if i == 0 then sequence
    else if 1 <= i < 11 then LittleEndian(NameSlot(name, (i - 1) / 2), (i - 1) % 2)
    else if i == 11 then 0x0f
    else if i == 13 then checksum
    else if 14 <= i < 26 then LittleEndian(NameSlot(name, 5 + (i - 14) / 2), i % 2)
    else if 28 <= i < 32 then LittleEndian(NameSlot(name, 11 + (i - 28) / 2), i % 2)
    else 0
  }

  function VolumeLabelByte(i: nat): byte {
    if i < 11 then Ascii("MTNAI_BOOT ")[i] else if i == 11 then 0x08 else 0
  }

  function ShortEntryByte(size: nat, i: nat): byte {
    if i < 11 then SHORT_NAME[i]
    else if i == 11 then 0x20
    else if 26 <= i < 28 then LittleEndian(2, i - 26)
    else if 28 <= i < 32 then LittleEndian(size, i - 28)
    else 0
  }

  /** Units of the name carried by the long-name entry with this ordinal. */
  function NameChunk(name: seq<unit>, ordinal: nat): (chunk: seq<unit>)
    requires 1 <= ordinal <= DivCeil(|name|, CHUNK_UNITS)
    ensures 1 <= |chunk| <= CHUNK_UNITS
  {
    var start := (ordinal - 1) * CHUNK_UNITS;
    name[start..if |name| < start + CHUNK_UNITS then |name| else start + CHUNK_UNITS]
  }

  function Sequence(name: seq<unit>, ordinal: nat): nat {
    ordinal + if ordinal == DivCeil(|name|, CHUNK_UNITS) then 0x40 else 0
  }

  function BootSector(): (b: seq<byte>)
    ensures |b| == FAT_START
  {
    seq(FAT_START, i requires 0 <= i => BootByte(i))
  }

  function Fat(clusters: nat): (b: seq<byte>)
    ensures |b| == FAT_BYTES
  {
    seq(FAT_BYTES, i requires 0 <= i => FatByte(clusters, i))
  }

  function VolumeLabelEntry(): (b: seq<byte>)
    ensures |b| == 32
  {
    seq(32, i requires 0 <= i => VolumeLabelByte(i))
  }

  function LongNameEntry(sequence: byte, name: seq<unit>, checksum: byte): (b: seq<byte>)
    ensures |b| == 32
  {
    seq(32, i requires 0 <= i => LongNameByte(sequence, name, checksum, i))
  }

  function ShortEntry(size: nat): (b: seq<byte>)
    ensures |b| == 32
  {
    seq(32, i requires 0 <= i => ShortEntryByte(size, i))
  }

  function Zeros(n: nat): (b: seq<byte>)
    ensures |b| == n && forall i :: 0 <= i < n ==> b[i] == 0
  {
    seq(n, _ => 0)
  }

  /** Entry e of those in use: volume label, long-name entries from the last chunk to the first, short entry. */
  function RootEntry(name: seq<unit>, size: nat, e: nat): (b: seq<byte>)
    requires |name| <= CHUNK_UNITS * 20
    ensures |b| == 32
  {
    var count := DivCeil(|name|, CHUNK_UNITS);
    if e == 0 then VolumeLabelEntry()
    else if e <= count then
      var ordinal := count + 1 - e;
      LongNameEntry(Sequence(name, ordinal), NameChunk(name, ordinal), ShortNameChecksum(SHORT_NAME))
    else ShortEntry(size)
  }

  /** The first n entries of the root directory. */
  function RootEntries(name: seq<unit>, size: nat, n: nat): (b: seq<byte>)
    requires |name| <= CHUNK_UNITS * 20
    ensures |b| == 32 * n
  {
    if n == 0 then [] else RootEntries(name, size, n - 1) + RootEntry(name, size, n - 1)
  }

  function RootDirectory(name: seq<unit>, size: nat): (b: seq<byte>)
    requires |name| <= CHUNK_UNITS * 20
    ensures |b| == 32 * ROOT_DIRECTORY_ENTRIES
  {
    var written := DivCeil(|name|, CHUNK_UNITS) + 2;
    RootEntries(name, size, written) + Zeros(32 * (ROOT_DIRECTORY_ENTRIES - written))
  }

  /** The file name in UTF-16. */
  function KeyFileName(): (name: seq<unit>)
    ensures |name| == 15
  {
    seq(15, i requires 0 <= i < 15 => LONG_NAME[i] as int)
  }

  /** The whole image for a content that fits. */
  function Image(content: seq<byte>): (image: seq<byte>)
    requires |content| <= CAPACITY
    ensures |image| == IMAGE_BYTES
  {
    var fat := Fat(Clusters(|content|));
    BootSector() + fat + fat + RootDirectory(KeyFileName(), |content|)
      + content + Zeros(IMAGE_BYTES - DATA_START - |content|)
  }

  lemma {:induction false} AsciiUnits(s: string)
    requires forall i :: 0 <= i < |s| ==> s[i] as int < 0x80
    ensures |Units(s)| == |s| && forall i :: 0 <= i < |s| ==> Units(s)[i] == s[i] as int
  {
    if s != "" {
      AsciiUnits(s[1..]);
      assert forall i :: 1 <= i < |s| ==> Units(s)[i] == Units(s[1..])[i - 1];
    }
  }

  lemma KeyFileNameIsText()
    ensures KeyFileName() == Units(LONG_NAME)
  {
    AsciiUnits(LONG_NAME);
  }

  // ----- Writing it -----

  method PutU16(image: array<byte>, offset: nat, value: u16)
    requires offset + 2 <= image.Length
    modifies image
    ensures image[offset] == LittleEndian(value, 0) && image[offset + 1] == LittleEndian(value, 1)
    ensures forall i :: 0 <= i < image.Length && !(offset <= i < offset + 2) ==> image[i] == old(image[i])
  {
    image[offset], image[offset + 1] := value % 0x100, value / 0x100;
  }

  method PutU32(image: array<byte>, offset: nat, value: u32)
    requires offset + 4 <= image.Length
    modifies image
    ensures forall i :: offset <= i < offset + 4 ==> image[i] == LittleEndian(value, i - offset)
    ensures forall i :: 0 <= i < image.Length && !(offset <= i < offset + 4) ==> image[i] == old(image[i])
  {
    image[offset], image[offset + 1] := value % 0x100, value / 0x100 % 0x100;
    image[offset + 2], image[offset + 3] := value / 0x1_0000 % 0x100, value / 0x100_0000;
  }

  method CopyInto(image: array<byte>, offset: nat, bytes: seq<byte>)
    requires offset + |bytes| <= image.Length
    modifies image
    ensures forall k :: offset <= k < offset + |bytes| ==> image[k] == bytes[k - offset]
    ensures forall i :: 0 <= i < image.Length && !(offset <= i < offset + |bytes|) ==> image[i] == old(image[i])
  {
    for k := 0 to |bytes|
      invariant forall i :: offset <= i < offset + k ==> image[i] == bytes[i - offset]
      invariant forall i :: 0 <= i < image.Length && !(offset <= i < offset + k) ==> image[i] == old(image[i])
    {
      image[offset + k] := bytes[k];
    }
  }

  method WritePadded(image: array<byte>, offset: nat, length: nat, value: seq<byte>, padding: byte)
    requires |value| <= length && offset + length <= image.Length
    modifies image
    ensures forall k :: offset <= k < offset + length ==>
              image[k] == if k - offset < |value| then value[k - offset] else padding
    ensures forall i :: 0 <= i < image.Length && !(offset <= i < offset + length) ==> image[i] == old(image[i])
  {
    CopyInto(image, offset, seq(length, _ => padding));
    CopyInto(image, offset, value);
  }

  method WriteBootParameters(image: array<byte>)
    requires image.Length == IMAGE_BYTES && forall i :: 0 <= i < FAT_START ==> image[i] == 0
    modifies image
    ensures forall i :: 0 <= i < 28 ==> image[i] == BootByte(i)
    ensures forall i :: 28 <= i < image.Length ==> image[i] == old(image[i])
  {
    CopyInto(image, 0, [0xeb, 0x3c, 0x90]);
    CopyInto(image, 3, Ascii("MTNAI16 "));
    assert forall i :: 0 <= i < 11 ==> image[i] == BootByte(i);
    PutU16(image, 11, BYTES_PER_SECTOR);
    image[13] := SECTORS_PER_CLUSTER;
    PutU16(image, 14, RESERVED_SECTORS);
    image[16] := FAT_COUNT;
    assert forall i :: 0 <= i < 17 ==> image[i] == BootByte(i);
    PutU16(image, 17, ROOT_DIRECTORY_ENTRIES);
    PutU16(image, 19, TOTAL_SECTORS);
    image[21] := 0xf8;
    PutU16(image, 22, SECTORS_PER_FAT);
    PutU16(image, 24, 32);
    PutU16(image, 26, 64);
  }

  method WriteBootSector(image: array<byte>)
    requires image.Length == IMAGE_BYTES && forall i :: 0 <= i < FAT_START ==> image[i] == 0
    modifies image
    ensures image[..FAT_START] == BootSector()
    ensures forall i :: FAT_START <= i < image.Length ==> image[i] == old(image[i])
  {
    WriteBootParameters(image);
    image[36] := 0x80;
    image[38] := 0x29;
    PutU32(image, 39, 0x4d544e41);
    WritePadded(image, 43, 11, Ascii("MTNAI_BOOT"), 0x20);
    WritePadded(image, 54, 8, Ascii("FAT16"), 0x20);
    assert forall i :: 28 <= i < 62 ==> image[i] == BootByte(i);
    image[510] := 0x55;
    image[511] := 0xaa;
    assert forall i :: 0 <= i < FAT_START ==> image[i] == BootByte(i);
    assert forall i :: 0 <= i < FAT_START ==> image[..FAT_START][i] == BootSector()[i];
  }

  method WriteFat(image: array<byte>, start: nat, clusters: nat)
    requires start + FAT_BYTES <= image.Length && 1 <= clusters <= DATA_CLUSTERS
    requires forall i :: start <= i < start + FAT_BYTES ==> image[i] == 0
    modifies image
    ensures image[start..start + FAT_BYTES] == Fat(clusters)
    ensures forall i :: 0 <= i < image.Length && !(start <= i < start + FAT_BYTES) ==> image[i] == old(image[i])
  {
    PutU16(image, start, 0xfff8);
    PutU16(image, start + 2, 0xffff);
    for offset := 0 to clusters
      invariant forall i :: start <= i < start + 2 * (2 + offset) ==> image[i] == FatByte(clusters, i - start)
      invariant forall i :: start + 2 * (2 + offset) <= i < start + FAT_BYTES ==> image[i] == 0
      invariant forall i :: 0 <= i < image.Length && !(start <= i < start + FAT_BYTES) ==> image[i] == old(image[i])
    {
      var cluster := 2 + offset;
      var value := if offset + 1 == clusters then 0xffff else cluster + 1;
      PutU16(image, start + cluster * 2, value);
      assert value == FatEntry(clusters, cluster);
    }
    assert forall k: nat :: LittleEndian(0, k % 2) == 0;
  }

  lemma SlotBytes(sequence: byte, name: seq<unit>, checksum: byte, slot: nat)
    requires slot < CHUNK_UNITS
    ensures LongNameByte(sequence, name, checksum, SlotOffset(slot)) == LittleEndian(NameSlot(name, slot), 0)
    ensures LongNameByte(sequence, name, checksum, SlotOffset(slot) + 1) == LittleEndian(NameSlot(name, slot), 1)
  {
  }

  /** A long-name entry written up to offset `done`, its attribute and checksum included. */
  function EntryProgress(sequence: byte, name: seq<unit>, checksum: byte, done: nat, i: nat): byte {
    if i < done || i == 11 || i == 13 then LongNameByte(sequence, name, checksum, i) else 0
  }

  ghost predicate EntryUpTo(entry: seq<byte>, sequence: byte, name: seq<unit>, checksum: byte, done: nat) {
    |entry| == 32 && forall i :: 0 <= i < 32 ==> entry[i] == EntryProgress(sequence, name, checksum, done, i)
  }

  /** Writing one unit moves the progress mark over it. */
  lemma SlotWritten(before: seq<byte>, after: seq<byte>, sequence: byte, name: seq<unit>, checksum: byte, slot: nat)
    requires |after| == 32 && slot < CHUNK_UNITS && EntryUpTo(before, sequence, name, checksum, SlotOffset(slot))
    requires forall i :: 0 <= i < 32 && i != SlotOffset(slot) && i != SlotOffset(slot) + 1 ==> after[i] == before[i]
    requires forall k :: 0 <= k < 2 ==> after[SlotOffset(slot) + k] == LittleEndian(NameSlot(name, slot), k)
    ensures EntryUpTo(after, sequence, name, checksum, SlotOffset(slot) + 2)
  {
    SlotBytes(sequence, name, checksum, slot);
    assert after[SlotOffset(slot) + 0] == after[SlotOffset(slot)];
  }

  /** Between two groups of units there is nothing left to write. */
  lemma GapWritten(entry: seq<byte>, sequence: byte, name: seq<unit>, checksum: byte)
    ensures EntryUpTo(entry, sequence, name, checksum, 11) ==> EntryUpTo(entry, sequence, name, checksum, 14)
    ensures EntryUpTo(entry, sequence, name, checksum, 26) ==> EntryUpTo(entry, sequence, name, checksum, 28)
    ensures EntryUpTo(entry, sequence, name, checksum, 32) ==> entry == LongNameEntry(sequence, name, checksum)
  {
  }

  method PutUnit(image: array<byte>, base: nat, ghost sequence: byte, ghost name: seq<unit>, ghost checksum: byte,
                 ghost slot: nat, offset: nat, value: u16)
    requires base + 32 <= image.Length && slot < CHUNK_UNITS && offset == SlotOffset(slot)
    requires value == NameSlot(name, slot)
    requires EntryUpTo(image[base..base + 32], sequence, name, checksum, offset)
    modifies image
    ensures EntryUpTo(image[base..base + 32], sequence, name, checksum, offset + 2)
    ensures forall i :: 0 <= i < image.Length && !(base <= i < base + 32) ==> image[i] == old(image[i])
  {
    ghost var before := image[base..base + 32];
    PutU16(image, base + offset, value);
    SlotWritten(before, image[base..base + 32], sequence, name, checksum, slot);
  }

  /** Writes one run of units; `position` runs one past the name after its terminator and then stays. */
  method WriteUnits(image: array<byte>, base: nat, sequence: byte, name: seq<unit>, checksum: byte,
                    offset: nat, length: nat, start: nat, ghost first: nat) returns (position: nat)
    requires base + 32 <= image.Length && first + length <= CHUNK_UNITS
    requires forall k :: 0 <= k < length ==> SlotOffset(first + k) == offset + 2 * k
    requires length > 0 && start == (if first <= |name| then first else |name| + 1)
    requires EntryUpTo(image[base..base + 32], sequence, name, checksum, offset)
    modifies image
    ensures position == if first + length <= |name| then first + length else |name| + 1
    ensures EntryUpTo(image[base..base + 32], sequence, name, checksum, offset + 2 * length)
    ensures forall i :: 0 <= i < image.Length && !(base <= i < base + 32) ==> image[i] == old(image[i])
  {
    position := start;
    for index := 0 to length
      invariant position == if first + index <= |name| then first + index else |name| + 1
      invariant EntryUpTo(image[base..base + 32], sequence, name, checksum, offset + 2 * index)
      invariant forall i :: 0 <= i < image.Length && !(base <= i < base + 32) ==> image[i] == old(image[i])
    {
      var value: u16;
      if position < |name| {
        value := name[position];
        position := position + 1;
      } else if position == |name| {
        position := position + 1;
        value := 0;
      } else {
        value := 0xffff;
      }
      PutUnit(image, base, sequence, name, checksum, first + index, offset + 2 * index, value);
    }
  }

  method WriteLongNameEntry(image: array<byte>, base: nat, sequence: byte, name: seq<unit>, checksum: byte)
    requires base + 32 <= image.Length && |name| <= CHUNK_UNITS
    modifies image
    ensures image[base..base + 32] == LongNameEntry(sequence, name, checksum)
    ensures forall i :: 0 <= i < image.Length && !(base <= i < base + 32) ==> image[i] == old(image[i])
  {
    CopyInto(image, base, seq(32, _ => 0));
    image[base] := sequence;
    image[base + 11] := 0x0f;
    image[base + 13] := checksum;
    assert EntryUpTo(image[base..base + 32], sequence, name, checksum, 1);
    var position := 0;
    position := WriteUnits(image, base, sequence, name, checksum, 1, 5, position, 0);
    GapWritten(image[base..base + 32], sequence, name, checksum);
    position := WriteUnits(image, base, sequence, name, checksum, 14, 6, position, 5);
    GapWritten(image[base..base + 32], sequence, name, checksum);
    position := WriteUnits(image, base, sequence, name, checksum, 28, 2, position, 11);
    GapWritten(image[base..base + 32], sequence, name, checksum);
  }

  method WriteVolumeLabel(image: array<byte>, base: nat)
    requires base + 32 <= image.Length && forall i :: base <= i < base + 32 ==> image[i] == 0
    modifies image
    ensures image[base..base + 32] == VolumeLabelEntry()
    ensures forall i :: 0 <= i < image.Length && !(base <= i < base + 32) ==> image[i] == old(image[i])
  {
    CopyInto(image, base, Ascii("MTNAI_BOOT "));
    image[base + 11] := 0x08;
  }

  method WriteShortEntry(image: array<byte>, base: nat, size: u32)
    requires base + 32 <= image.Length && forall i :: base <= i < base + 32 ==> image[i] == 0
    modifies image
    ensures image[base..base + 32] == ShortEntry(size)
    ensures forall i :: 0 <= i < image.Length && !(base <= i < base + 32) ==> image[i] == old(image[i])
  {
    CopyInto(image, base, SHORT_NAME);
    image[base + 11] := 0x20;
    PutU16(image, base + 26, 2);
    PutU32(image, base + 28, size);
  }

  /** The first n entries are written and the rest of the directory is still zero. */
  ghost predicate RootWritten(image: seq<byte>, name: seq<unit>, size: nat, n: nat)
    requires |name| <= CHUNK_UNITS * 20 && n <= 22 && |image| == IMAGE_BYTES
  {
    && image[ROOT_START..ROOT_START + 32 * n] == RootEntries(name, size, n)
    && forall i :: ROOT_START + 32 * n <= i < DATA_START ==> image[i] == 0
  }

  /** Writing entry n extends the directory by one. */
  lemma RootGrows(image: seq<byte>, before: seq<byte>, name: seq<unit>, size: nat, n: nat)
    requires |name| <= CHUNK_UNITS * 20 && n < 22 && |image| == |before| == IMAGE_BYTES
    requires RootWritten(before, name, size, n)
    requires var at := ROOT_START + 32 * n;
             && image[at..at + 32] == RootEntry(name, size, n)
             && forall i :: 0 <= i < IMAGE_BYTES && !(at <= i < at + 32) ==> image[i] == before[i]
    ensures RootWritten(image, name, size, n + 1)
  {
    var at := ROOT_START + 32 * n;
    SliceSame(image, before, ROOT_START, at);
    SliceJoin(image, ROOT_START, at, at + 32);
  }

  /** Entries, then zeros: the whole directory. */
  lemma RootComplete(image: seq<byte>, name: seq<unit>, size: nat)
    requires |name| <= CHUNK_UNITS * 20 && |image| == IMAGE_BYTES
    requires RootWritten(image, name, size, DivCeil(|name|, CHUNK_UNITS) + 2)
    ensures image[ROOT_START..DATA_START] == RootDirectory(name, size)
  {
    var middle := ROOT_START + 32 * (DivCeil(|name|, CHUNK_UNITS) + 2);
    SliceJoin(image, ROOT_START, middle, DATA_START);
    assert image[middle..DATA_START] == Zeros(DATA_START - middle);
  }

  method WriteChunk(image: array<byte>, name: seq<unit>, number: nat, chunkCount: nat, checksum: byte)
    requires image.Length == IMAGE_BYTES && |name| <= CHUNK_UNITS * 20
    requires chunkCount == DivCeil(|name|, CHUNK_UNITS) && 1 <= number <= chunkCount
    modifies image
    ensures var at := ROOT_START + 32 * (1 + chunkCount - number);
            && image[at..at + 32] == LongNameEntry(Sequence(name, number), NameChunk(name, number), checksum)
            && forall i :: 0 <= i < image.Length && !(at <= i < at + 32) ==> image[i] == old(image[i])
  {
    var start := (number - 1) * CHUNK_UNITS;
    var end := if |name| < start + CHUNK_UNITS then |name| else start + CHUNK_UNITS;
    assert name[start..end] == NameChunk(name, number);
    var sequence := number + if number == chunkCount then 0x40 else 0;
    WriteLongNameEntry(image, ROOT_START + 32 + (chunkCount - number) * 32, sequence, name[start..end], checksum);
  }

  lemma ChunkGrows(image: seq<byte>, before: seq<byte>, name: seq<unit>, size: nat, number: nat)
    requires |name| <= CHUNK_UNITS * 20 && |image| == |before| == IMAGE_BYTES
        && 1 <= number <= DivCeil(|name|, CHUNK_UNITS)
    requires RootWritten(before, name, size, 1 + DivCeil(|name|, CHUNK_UNITS) - number)
    requires var at := ROOT_START + 32 * (1 + DivCeil(|name|, CHUNK_UNITS) - number);
             && image[at..at + 32] == LongNameEntry(Sequence(name, number), NameChunk(name, number),
                                                    ShortNameChecksum(SHORT_NAME))
             && forall i :: 0 <= i < IMAGE_BYTES && !(at <= i < at + 32) ==> image[i] == before[i]
    ensures RootWritten(image, name, size, 2 + DivCeil(|name|, CHUNK_UNITS) - number)
  {
    ChunkIsEntry(name, size, number);
    RootGrows(image, before, name, size, 1 + DivCeil(|name|, CHUNK_UNITS) - number);
  }

  /** The entries of the long name stand in the directory from the last chunk to the first. */
  lemma ChunkIsEntry(name: seq<unit>, size: nat, number: nat)
    requires |name| <= CHUNK_UNITS * 20 && 1 <= number <= DivCeil(|name|, CHUNK_UNITS)
    ensures RootEntry(name, size, 1 + DivCeil(|name|, CHUNK_UNITS) - number) ==
              LongNameEntry(Sequence(name, number), NameChunk(name, number), ShortNameChecksum(SHORT_NAME))
  {
  }

  /** The long-name entries, last chunk first. */
  method WriteLongName(image: array<byte>, name: seq<unit>, ghost size: nat)
    requires image.Length == IMAGE_BYTES && |name| <= CHUNK_UNITS * 20 && RootWritten(image[..], name, size, 1)
    modifies image
    ensures RootWritten(image[..], name, size, 1 + DivCeil(|name|, CHUNK_UNITS))
    ensures forall i :: 0 <= i < image.Length && !(ROOT_START <= i < DATA_START) ==> image[i] == old(image[i])
  {
    var checksum := ShortNameChecksum(SHORT_NAME);
    var chunkCount := DivCeil(|name|, CHUNK_UNITS);
    for ordinal := chunkCount downto 0
      invariant RootWritten(image[..], name, size, 1 + chunkCount - ordinal)
      invariant forall i :: 0 <= i < image.Length && !(ROOT_START <= i < DATA_START) ==> image[i] == old(image[i])
    {
      ExtendLongName(image, name, size, ordinal + 1, chunkCount, checksum);
    }
  }

  method ExtendLongName(image: array<byte>, name: seq<unit>, ghost size: nat, number: nat, chunkCount: nat,
                        checksum: byte)
    requires image.Length == IMAGE_BYTES && |name| <= CHUNK_UNITS * 20
    requires chunkCount == DivCeil(|name|, CHUNK_UNITS) && 1 <= number <= chunkCount
        && checksum == ShortNameChecksum(SHORT_NAME)
    requires RootWritten(image[..], name, size, 1 + chunkCount - number)
    modifies image
    ensures RootWritten(image[..], name, size, 2 + chunkCount - number)
    ensures forall i :: 0 <= i < image.Length && !(ROOT_START <= i < DATA_START) ==> image[i] == old(image[i])
  {
    ghost var before := image[..];
    WriteChunk(image, name, number, chunkCount, checksum);
    ghost var written := ROOT_START + 32 * (1 + chunkCount - number);
    assert image[..][written..written + 32] == image[written..written + 32];
    ChunkGrows(image[..], before, name, size, number);
  }

  method WriteRootDirectory(image: array<byte>, name: seq<unit>, size: u32)
    requires image.Length == IMAGE_BYTES && |name| <= CHUNK_UNITS * 20
    requires forall i :: ROOT_START <= i < DATA_START ==> image[i] == 0
    modifies image
    ensures image[ROOT_START..DATA_START] == RootDirectory(name, size)
    ensures forall i :: 0 <= i < image.Length && !(ROOT_START <= i < DATA_START) ==> image[i] == old(image[i])
  {
    ghost var before := image[..];
    WriteVolumeLabel(image, ROOT_START);
    assert image[..][ROOT_START..ROOT_START + 32] == image[ROOT_START..ROOT_START + 32];
    RootGrows(image[..], before, name, size, 0);
    WriteLongName(image, name, size);
    before := image[..];
    ghost var count := DivCeil(|name|, CHUNK_UNITS);
    var at := ROOT_START + 32 + DivCeil(|name|, CHUNK_UNITS) * 32;
    WriteShortEntry(image, at, size);
    assert image[..][at..at + 32] == image[at..at + 32];
    RootGrows(image[..], before, name, size, 1 + count);
    RootComplete(image[..], name, size);
    assert image[..][ROOT_START..DATA_START] == image[ROOT_START..DATA_START];
  }

  /** The first n copies of the table are written. */
  ghost predicate FatsWritten(image: seq<byte>, clusters: nat, n: nat)
    requires |image| == IMAGE_BYTES
  {
    && (n >= 1 ==> image[FAT_START..FAT_START + FAT_BYTES] == Fat(clusters))
    && (n >= 2 ==> image[FAT_START + FAT_BYTES..ROOT_START] == Fat(clusters))
  }

  lemma FatsGrow(image: seq<byte>, before: seq<byte>, clusters: nat, n: nat)
    requires |image| == |before| == IMAGE_BYTES && n < FAT_COUNT && FatsWritten(before, clusters, n)
    requires var at := FAT_START + n * FAT_BYTES;
             && image[at..at + FAT_BYTES] == Fat(clusters)
             && forall i :: 0 <= i < IMAGE_BYTES && !(at <= i < at + FAT_BYTES) ==> image[i] == before[i]
    ensures FatsWritten(image, clusters, n + 1)
  {
    if n == 1 {
      SliceSame(image, before, FAT_START, FAT_START + FAT_BYTES);
    }
  }

  method WriteFats(image: array<byte>, clusters: nat)
    requires image.Length == IMAGE_BYTES && 1 <= clusters <= DATA_CLUSTERS
    requires forall i :: FAT_START <= i < ROOT_START ==> image[i] == 0
    modifies image
    ensures FatsWritten(image[..], clusters, FAT_COUNT)
    ensures forall i :: 0 <= i < image.Length && !(FAT_START <= i < ROOT_START) ==> image[i] == old(image[i])
  {
    for fatIndex := 0 to FAT_COUNT
      invariant FatsWritten(image[..], clusters, fatIndex)
      invariant forall i :: FAT_START + fatIndex * FAT_BYTES <= i < ROOT_START ==> image[i] == 0
      invariant forall i :: 0 <= i < image.Length && !(FAT_START <= i < ROOT_START) ==> image[i] == old(image[i])
    {
      ExtendFats(image, clusters, fatIndex);
    }
  }

  method ExtendFats(image: array<byte>, clusters: nat, fatIndex: nat)
    requires image.Length == IMAGE_BYTES && 1 <= clusters <= DATA_CLUSTERS && fatIndex < FAT_COUNT
    requires FatsWritten(image[..], clusters, fatIndex)
    requires forall i :: FAT_START + fatIndex * FAT_BYTES <= i < ROOT_START ==> image[i] == 0
    modifies image
    ensures FatsWritten(image[..], clusters, fatIndex + 1)
    ensures var start := FAT_START + fatIndex * FAT_BYTES;
            forall i :: 0 <= i < image.Length && !(start <= i < start + FAT_BYTES) ==> image[i] == old(image[i])
  {
    ghost var before := image[..];
    var start := FAT_START + fatIndex * FAT_BYTES;
    WriteFat(image, start, clusters);
    assert image[..][start..start + FAT_BYTES] == image[start..start + FAT_BYTES];
    FatsGrow(image[..], before, clusters, fatIndex);
  }

  method WriteData(image: array<byte>, content: seq<byte>)
    requires image.Length == IMAGE_BYTES && |content| <= CAPACITY
    requires forall i :: DATA_START <= i < IMAGE_BYTES ==> image[i] == 0
    modifies image
    ensures image[DATA_START..] == content + Zeros(IMAGE_BYTES - DATA_START - |content|)
    ensures forall i :: 0 <= i < DATA_START ==> image[i] == old(image[i])
  {
    var index := 0;
    while index * BYTES_PER_SECTOR < |content|
      invariant forall i :: 0 <= i < DATA_START ==> image[i] == old(image[i])
      invariant forall i :: DATA_START <= i < IMAGE_BYTES ==>
                              image[i] == if i - DATA_START < |content| && i - DATA_START < index * BYTES_PER_SECTOR
                                          then content[i - DATA_START] else 0
      decreases |content| - index * BYTES_PER_SECTOR
    {
      var start := index * BYTES_PER_SECTOR;
      var end := if |content| < start + BYTES_PER_SECTOR then |content| else start + BYTES_PER_SECTOR;
      CopyInto(image, DATA_START + start, content[start..end]);
      index := index + 1;
    }
  }

  datatype ImageError = DoesNotFit

  /** The writer succeeds exactly when the content fits the data clusters, and then every byte is as specified. */
  method BuildFat16Image(content: seq<byte>) returns (r: Result<seq<byte>, ImageError>)
    ensures |content| <= CAPACITY ==> r == Ok(Image(content))
    ensures |content| > CAPACITY ==> r == Err(DoesNotFit)
  {
    var clusters := Clusters(|content|);
    if clusters > DATA_CLUSTERS || clusters > 0xffff - 2 {
      return Err(DoesNotFit);
    }
    var image := new byte[IMAGE_BYTES](_ => 0);
    WriteBootSector(image);
    WriteFats(image, clusters);
    ghost var fats := image[..];
    WriteRootDirectory(image, KeyFileName(), |content|);
    ghost var root := image[..];
    WriteData(image, content);
    ImageAssembled(fats, root, image[..], content);
    return Ok(image[..]);
  }

  lemma ImageAssembled(fats: seq<byte>, root: seq<byte>, image: seq<byte>, content: seq<byte>)
    requires |content| <= CAPACITY && |fats| == |root| == |image| == IMAGE_BYTES
    requires var fat := Fat(Clusters(|content|));
             && fats[..FAT_START] == BootSector()
             && fats[FAT_START..FAT_START + FAT_BYTES] == fat && fats[FAT_START + FAT_BYTES..ROOT_START] == fat
    requires root[ROOT_START..DATA_START] == RootDirectory(KeyFileName(), |content|)
    requires image[DATA_START..] == content + Zeros(IMAGE_BYTES - DATA_START - |content|)
    requires forall i :: 0 <= i < ROOT_START ==> root[i] == fats[i]
    requires forall i :: 0 <= i < DATA_START ==> image[i] == root[i]
    ensures image == Image(content)
  {
    assert image[..FAT_START] == fats[..FAT_START];
    assert image[FAT_START..FAT_START + FAT_BYTES] == fats[FAT_START..FAT_START + FAT_BYTES];
    assert image[FAT_START + FAT_BYTES..ROOT_START] == fats[FAT_START + FAT_BYTES..ROOT_START];
    assert image[ROOT_START..DATA_START] == root[ROOT_START..DATA_START];
    assert image == image[..FAT_START] + image[FAT_START..FAT_START + FAT_BYTES]
        + image[FAT_START + FAT_BYTES..ROOT_START]
                    + image[ROOT_START..DATA_START] + image[DATA_START..];
  }
}
