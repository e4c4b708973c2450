/**
 * What a system reads from the volume besides the file: the two labels a device is found by, and the fields a mount
 * looks at to know a FAT16 volume (Microsoft FAT32 File System Specification 1.03, sections "Boot Sector and BPB",
 * "FAT Data Structure" and "FAT Directory Structure"). Every value is written out here, not taken from the writer.
 */
module FatLabels {
  import opened Wrappers
  import opened Utf8
  import opened FatImage
  import opened FatReader

  // ----- The labels -----

  /** A padded name without its trailing spaces. */
  function Unpadded(name: seq<byte>): seq<byte> {
    if name == [] || name[|name| - 1] != 0x20 then name else Unpadded(name[..|name| - 1])
  }

  /** The label in the boot sector, if the extended signature says there is one. */
  function BootLabel(disk: seq<byte>): Option<seq<byte>> {
    if |disk| < SECTOR || disk[38] != 0x29 then None else Some(Unpadded(disk[43..54]))
  }

  /** The label in the root directory: the first entry in use that is a volume label and no long name. */
  function RootLabel(directory: seq<byte>): Option<seq<byte>> {
    if |directory| < 32 || directory[0] == 0 then None
    else if directory[0] != 0xE5 && directory[11] != 0x0f && HasBit(directory[11], 0x08) then
      Some(Unpadded(directory[..11]))
    else RootLabel(directory[32..])
  }

  /** "MTNAI_BOOT" */
  const LABEL: seq<byte> := [0x4d, 0x54, 0x4e, 0x41, 0x49, 0x5f, 0x42, 0x4f, 0x4f, 0x54]

  lemma LabelIsText()
    ensures Encode("MTNAI_BOOT") == LABEL
  {
    var c := "MTNAI_BOOT";
    AsciiEncodes(c);
    assert Encode(c) == LABEL;
  }

  lemma {:induction false} AsciiEncodes(s: string)
    requires forall i :: 0 <= i < |s| ==> s[i] as int < 0x80
    ensures |Encode(s)| == |s| && forall i :: 0 <= i < |s| ==> Encode(s)[i] == s[i] as int
  {
    if s != "" {
      AsciiEncodes(s[1..]);
      assert EncodeChar(s[0]) == [s[0] as int];
    }
  }

  lemma LabelUnpads(name: seq<byte>)
    requires name == LABEL + [0x20]
    ensures Unpadded(name) == LABEL
  {
    assert name[..10] == LABEL;
  }

  // ----- The boot sector -----

  /**
   * The fields of the boot sector that say this is a FAT16 volume, and those a mount does not need, all written out.
   */
  ghost predicate BootSectorIs16(disk: seq<byte>)
    requires |disk| >= SECTOR
  {
    && disk[0] == 0xeb && disk[1] == 0x3c && disk[2] == 0x90
    && disk[3..11] == [0x4d, 0x54, 0x4e, 0x41, 0x49, 0x31, 0x36, 0x20]
    && U16At(disk, 11) == 512 && disk[13] == 4 && U16At(disk, 14) == 1 && disk[16] == 2
    && U16At(disk, 17) == 32 && U16At(disk, 19) == 32768 && disk[21] == 0xf8 && U16At(disk, 22) == 32
    && U16At(disk, 24) == 32 && U16At(disk, 26) == 64 && U32At(disk, 28) == 0 && U32At(disk, 32) == 0
    && disk[36] == 0x80 && disk[37] == 0 && disk[38] == 0x29 && U32At(disk, 39) == 0x4d54_4e41
    && disk[54..62] == [0x46, 0x41, 0x54, 0x31, 0x36, 0x20, 0x20, 0x20]
    && (forall i :: 62 <= i < 510 ==> disk[i] == 0)
    && disk[510] == 0x55 && disk[511] == 0xaa
  }

  lemma BootNumbers()
    ensures var b := BootSector();
            && U16At(b, 11) == 512 && U16At(b, 14) == 1 && U16At(b, 17) == 32 && U16At(b, 19) == 32768
            && U16At(b, 22) == 32 && U16At(b, 24) == 32 && U16At(b, 26) == 64
            && U32At(b, 28) == 0 && U32At(b, 32) == 0 && U32At(b, 39) == 0x4d54_4e41
  {
  }

  lemma BootTexts()
    ensures var b := BootSector();
            && b[3..11] == [0x4d, 0x54, 0x4e, 0x41, 0x49, 0x31, 0x36, 0x20]
            && b[43..54] == LABEL + [0x20]
            && b[54..62] == [0x46, 0x41, 0x54, 0x31, 0x36, 0x20, 0x20, 0x20]
  {
  }

  lemma BootBytes()
    ensures var b := BootSector();
            && b[0] == 0xeb && b[1] == 0x3c && b[2] == 0x90 && b[13] == 4 && b[16] == 2 && b[21] == 0xf8
            && b[36] == 0x80 && b[37] == 0 && b[38] == 0x29 && b[510] == 0x55 && b[511] == 0xaa
            && forall i :: 62 <= i < 510 ==> b[i] == 0
  {
  }

  /** The image begins with its boot sector. */
  lemma ImageBegins(content: seq<byte>)
    requires |content| <= CAPACITY
    ensures |Image(content)| == 0x100_0000 && Image(content)[..512] == BootSector()
  {
    ImageRegions(content);
  }

  lemma SameBoot(disk: seq<byte>, boot: seq<byte>)
    requires |disk| >= SECTOR && |boot| == SECTOR && disk[..SECTOR] == boot && BootSectorIs16(boot)
    ensures BootSectorIs16(disk)
  {
    assert forall i :: 0 <= i < SECTOR ==> disk[i] == disk[..SECTOR][i] == boot[i];
    assert disk[3..11] == boot[3..11] && disk[54..62] == boot[54..62];
  }

  /** Every image is a FAT16 volume by its boot sector. */
  lemma ImageIsFat16(content: seq<byte>)
    requires |content| <= CAPACITY
    ensures |Image(content)| == 0x100_0000 && BootSectorIs16(Image(content))
  {
    ImageBegins(content);
    BootNumbers();
    BootTexts();
    BootBytes();
    SameBoot(Image(content), BootSector());
  }

  // ----- Labels, tables and the short name -----

  /** Both labels of every image read MTNAI_BOOT. */
  lemma VolumeIsLabelled(content: seq<byte>)
    requires |content| <= CAPACITY
    ensures BootLabel(Image(content)) == Some(Encode("MTNAI_BOOT"))
    ensures Mount(Image(content)).Some?
    ensures RootLabel(RootOf(Image(content), Mount(Image(content)).value)) == Some(Encode("MTNAI_BOOT"))
  {
    var image := Image(content);
    LabelIsText();
    ImageBegins(content);
    BootTexts();
    BootBytes();
    assert image[38] == image[..512][38];
    assert image[43..54] == image[..512][43..54];
    LabelUnpads(image[43..54]);
    ImageMounts(content);
    ImageRoot(content);
    RootIsLabelled(|content|);
  }

  lemma RootIsLabelled(size: nat)
    ensures RootLabel(RootDirectory(KeyFileName(), size)) == Some(LABEL)
  {
    var root := RootDirectory(KeyFileName(), size);
    DirectoryEntry(KeyFileName(), size, 0);
    var entry := root[0..32];
    assert entry == VolumeLabelEntry();
    assert root[0] == entry[0] == 0x4d && root[11] == entry[11] == 0x08;
    assert root[..11] == entry[..11] == LABEL + [0x20];
    LabelUnpads(root[..11]);
  }

  /** Both tables begin with the media byte and a clean end mark, hold the chain of the file, and are free otherwise. */
  lemma TablesAreInOrder(content: seq<byte>, copy: nat)
    requires |content| <= CAPACITY && copy < 2
    ensures Mount(Image(content)).Some? && Mount(Image(content)).value.fats == 2
    ensures 4085 <= Mount(Image(content)).value.clusters < 65525
    ensures var fat := FatCopy(Image(content), Mount(Image(content)).value, copy);
            && U16At(fat, 0) == 0xff00 + Image(content)[21] as int && U16At(fat, 2) == 0xffff
            && forall slot :: Clusters(|content|) + 2 <= slot < 8192 ==> U16At(fat, 2 * slot) == 0
  {
    ImageMounts(content);
    ImageFat(content, copy);
    ImageIsFat16(content);
    var clusters := Clusters(|content|);
    FatEntryRead(clusters, 0);
    FatEntryRead(clusters, 1);
    forall slot | clusters + 2 <= slot < 8192 ensures U16At(Fat(clusters), 2 * slot) == 0 {
      FatEntryRead(clusters, slot);
    }
  }

  /** Scans directory entries for a file with this padded 8.3 name. */
  function FindShort(directory: seq<byte>, name: seq<byte>): Option<FoundFile> {
    if |directory| < 32 || directory[0] == 0 then None
    else if directory[..11] == name && !HasBit(directory[11], 0x08) then
      Some(FoundFile(U16At(directory, 26), U32At(directory, 28)))
    else FindShort(directory[32..], name)
  }

  /** "AUTHOR~1KEY" */
  const SHORT: seq<byte> := [0x41, 0x55, 0x54, 0x48, 0x4f, 0x52, 0x7e, 0x31, 0x4b, 0x45, 0x59]

  lemma SkipsEntry(directory: seq<byte>, name: seq<byte>)
    requires |directory| >= 32 && directory[0] != 0 && HasBit(directory[11], 0x08)
    ensures FindShort(directory, name) == FindShort(directory[32..], name)
  {
  }

  lemma EntryAt(directory: seq<byte>, e: nat)
    requires 32 * e + 32 <= |directory|
    ensures directory[32 * e..][..32] == directory[32 * e..32 * e + 32]
    ensures directory[32 * e..][32..] == directory[32 * (e + 1)..]
  {
  }

  /** The file is found under its 8.3 name too, with first cluster and size; its entry is the last one in use. */
  lemma FoundByShortName(size: u32)
    ensures var root := RootDirectory(KeyFileName(), size);
            && FindShort(root, SHORT) == Some(FoundFile(2, size))
            && forall i :: 128 <= i < 1024 ==> root[i] == 0
  {
    var name := KeyFileName();
    var root := RootDirectory(name, size);
    assert DivCeil(|name|, CHUNK_UNITS) == 2;
    SkipsThrough(root, size, 0);
    SkipsThrough(root, size, 1);
    SkipsThrough(root, size, 2);
    assert root[32 * 0..] == root;
    LastEntry(root, size);
  }

  lemma SkipsThrough(root: seq<byte>, size: u32, e: nat)
    requires root == RootDirectory(KeyFileName(), size) && e < 3
    ensures FindShort(root[32 * e..], SHORT) == FindShort(root[32 * (e + 1)..], SHORT)
  {
    var name := KeyFileName();
    DirectoryEntry(name, size, e);
    EntryAt(root, e);
    var entry := root[32 * e..][..32];
    assert entry == RootEntry(name, size, e);
    assert root[32 * e..][0] == entry[0] && root[32 * e..][11] == entry[11];
    if e == 0 {
      VolumeLabelHeader();
    } else {
      var ordinal := 3 - e;
      LongNameHeader(Sequence(name, ordinal), NameChunk(name, ordinal), ShortNameChecksum(SHORT_NAME));
    }
    SkipsEntry(root[32 * e..], SHORT);
  }

  lemma LastEntry(root: seq<byte>, size: u32)
    requires root == RootDirectory(KeyFileName(), size)
    ensures FindShort(root[32 * 3..], SHORT) == Some(FoundFile(2, size))
    ensures forall i :: 128 <= i < 1024 ==> root[i] == 0
  {
    var name := KeyFileName();
    DirectoryEntry(name, size, 3);
    EntryAt(root, 3);
    ShortEntryFields(size);
    var directory, entry := root[32 * 3..], ShortEntry(size);
    assert directory[..32] == entry;
    assert directory[..11] == directory[..32][..11] && entry[..11] == SHORT;
    assert forall k :: 0 <= k < 32 ==> directory[k] == directory[..32][k] == entry[k];
    assert U16At(directory, 26) == U16At(entry, 26) && U32At(directory, 28) == U32At(entry, 28);
  }

  /** The data region is the content, and nothing else is written in it. */
  lemma NothingBehindContent(content: seq<byte>)
    requires |content| <= CAPACITY
    ensures var image := Image(content);
            && image[34304..34304 + |content|] == content
            && forall i :: 34304 + |content| <= i < |image| ==> image[i] == 0
  {
    ImageRegions(content);
  }
}
