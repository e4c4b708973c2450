/**
 * Materialization of the runtime appliance: what is fetched is checked against every identity it claims, promoted into
 * a managed directory, recorded, and later reused on the strength of the record. The digest function, the parsers and
 * the decompressor are parameters.
 */
module Appliance {
  import opened Wrappers
  import opened Utf8

  const MAX_APPLIANCE_RAW_BYTES := 8 * 1024 * 1024 * 1024
  const STATE_SCHEMA := "mottainai.host-bootstrap.appliance.v1"
  const ARTIFACT_TYPE := "application/vnd.mottainai.runtime.appliance.v1"
  const MANIFEST_MEDIA_TYPE := "application/vnd.oci.image.manifest.v1+json"
  const RAW_LAYER := "application/vnd.mottainai.runtime.appliance.raw.v1+zstd"
  const MANIFEST_LAYER := "application/vnd.mottainai.runtime.appliance.manifest.v1+json"
  const METADATA_LAYER := "application/vnd.mottainai.runtime.appliance.release-metadata.v1+json"

  // ----- References and recorded state -----

  datatype Identity = Identity(manifestSha256: string, rawSha256: string, rawSizeBytes: nat)

  datatype Reference = Reference(registry: string, repository: string, digest: string, expected: Option<Identity>)

  datatype ApplianceState = ApplianceState(
    schemaVersion: string,
    registry: string,
    repository: string,
    digest: string,
    rawSha256: string,
    rawSizeBytes: nat,
    manifestSha256: Option<string>,
    expected: Option<Identity>)

  datatype RawEntry = NoRaw | NotAFile | RawFile(bytes: seq<byte>)
  datatype StateEntry = NoState | UnreadableState | StateFile(state: ApplianceState)

  /** One managed directory. */
  datatype Slot = Slot(raw: RawEntry, state: StateEntry)

  /** The managed root, by directory name. */
  type Root = map<string, Slot>

  datatype ErrorCode =
    | ReferenceInvalid
    | StateIncompatible
    | StateAmbiguous
    | DownloadFailed
    | ManifestInvalid
    | DigestMismatch
    | IoError

  function SlotOf(root: Root, key: string): Slot {
    if key in root then root[key] else Slot(NoRaw, NoState)
  }

  predicate LowerHexChar(c: char) {
    '0' <= c <= '9' || 'a' <= c <= 'f'
  }

  predicate IsLowercaseSha256(s: string) {
    |s| == 64 && forall i :: 0 <= i < |s| ==> LowerHexChar(s[i])
  }

  const PREFIX := "sha256:"

  predicate ValidDigest(d: string) {
    PREFIX <= d && IsLowercaseSha256(d[|PREFIX|..])
  }

  function Hex(d: string): string {
    if PREFIX <= d then d[|PREFIX|..] else d
  }

  predicate NameChar(c: char, extra: string) {
    'a' <= c <= 'z' || 'A' <= c <= 'Z' || '0' <= c <= '9' || c in extra
  }

  predicate ValidName(s: string, extra: string) {
    0 < |s| <= 255 && forall i :: 0 <= i < |s| ==> NameChar(s[i], extra)
  }

  predicate ValidIdentity(e: Identity) {
    IsLowercaseSha256(e.manifestSha256) && IsLowercaseSha256(e.rawSha256)
      && 1 <= e.rawSizeBytes <= MAX_APPLIANCE_RAW_BYTES
  }

  predicate ValidReference(r: Reference) {
    && ValidName(r.registry, "-.:") && ValidName(r.repository, "-_./") && ValidDigest(r.digest)
    && (r.expected.Some? ==> ValidIdentity(r.expected.value))
  }

  // ----- What the outside provides -----

  datatype Layer = Layer(mediaType: string, digest: string, size: nat)
  datatype OciManifest = OciManifest(schemaVersion: int, mediaType: string, artifactType: string, layers: seq<Layer>)
  datatype ApplianceManifest =
    ApplianceManifest(sourceRevision: Option<string>, imageSha256: Option<string>, imageSize: Option<nat>)
  datatype Compressed =
    Compressed(filename: Option<string>, format: Option<string>, sha256: Option<string>, size: Option<nat>)
  datatype ReleaseMetadata =
    ReleaseMetadata(sourceRevision: Option<string>, canonicalManifest: Option<string>, compressed: Option<Compressed>)

  /** The digest, the three JSON readers and the decompressor; what they cannot read gives nothing. */
  datatype World = World(
    sha256: seq<byte> -> string,
    ociManifest: seq<byte> -> Option<OciManifest>,
    applianceManifest: seq<byte> -> Option<ApplianceManifest>,
    releaseMetadata: seq<byte> -> Option<ReleaseMetadata>,
    decompress: seq<byte> -> Option<seq<byte>>)

  /** What a source answers, right or wrong. */
  datatype Replies = Replies(
    manifest: Option<seq<byte>>,
    manifestBlob: Option<seq<byte>>,
    metadataBlob: Option<seq<byte>>,
    rawBlob: Option<seq<byte>>)

  // ----- Checking what was fetched -----

  function FindLayer(layers: seq<Layer>, mediaType: string): (r: Option<Layer>)
    ensures r.Some? ==> r.value in layers && r.value.mediaType == mediaType
    ensures r.None? ==> forall l :: l in layers ==> l.mediaType != mediaType
  {
    if layers == [] then None
    else if layers[0].mediaType == mediaType then Some(layers[0])
    else FindLayer(layers[1..], mediaType)
  }

  predicate HasManifestShape(m: OciManifest) {
    && m.schemaVersion == 2 && m.mediaType == MANIFEST_MEDIA_TYPE && m.artifactType == ARTIFACT_TYPE
    && |m.layers| == 3
    && (forall i :: 0 <= i < |m.layers| ==> ValidDigest(m.layers[i].digest))
    && (forall i, j :: 0 <= i < j < |m.layers| ==> m.layers[i].mediaType != m.layers[j].mediaType)
    && FindLayer(m.layers, RAW_LAYER).Some? && FindLayer(m.layers, MANIFEST_LAYER).Some?
       && FindLayer(m.layers, METADATA_LAYER).Some?
  }

  predicate BlobMatches(w: World, bytes: seq<byte>, layer: Layer) {
    |bytes| == layer.size && w.sha256(bytes) == Hex(layer.digest)
  }

  predicate CrossVerified(m: ApplianceManifest, r: ReleaseMetadata, raw: Layer) {
    && m.sourceRevision.Some? && m.sourceRevision == r.sourceRevision
    && r.canonicalManifest == Some("runtime-appliance-manifest.json")
    && r.compressed.Some?
    && r.compressed.value.filename == Some("mottainai-runtime-appliance.raw.zst")
    && r.compressed.value.format == Some("zstd")
    && r.compressed.value.sha256.Some? && IsLowercaseSha256(r.compressed.value.sha256.value)
    && r.compressed.value.size == Some(raw.size)
    && PREFIX + r.compressed.value.sha256.value == raw.digest
  }

  function EffectiveRawBound(declared: nat): nat {
    if declared < MAX_APPLIANCE_RAW_BYTES then declared else MAX_APPLIANCE_RAW_BYTES
  }

  /** How decompression ends for a stream that breaks off at `broken`, if it does. */
  function Decompressed(w: World, content: seq<byte>, broken: Option<nat>, bound: nat)
    : Result<(string, nat), ErrorCode>
  {
    if broken.Some? && broken.value <= bound then Err(ManifestInvalid)
    else if |content| > bound then Err(DigestMismatch)
    else Ok((w.sha256(content), |content|))
  }

  /** Which operations on the two files fail; a write fails by the offset it begins at. */
  datatype IoFaults = IoFaults(open: bool, create: bool, write: nat -> bool, sync: bool)

  ghost predicate NoFault(io: IoFaults) {
    !io.open && !io.create && !io.sync && forall offset :: !io.write(offset)
  }

  /**
   * Reading the stream in pieces of any size never puts more than the bound on the disk. Success means the digest and
   * size of all of it, on the disk; after any error the staged file is gone. Only an operation on a file that fails
   * makes an input or output error, and without one the outcome depends on the stream alone.
   */
  method DecompressAndHash(w: World, content: seq<byte>, broken: Option<nat>, declared: nat, pace: nat -> nat,
                           io: IoFaults)
    returns (r: Result<(string, nat), ErrorCode>, file: Option<seq<byte>>, ghost written: seq<byte>)
    requires broken.Some? ==> broken.value <= |content|
    ensures r.Ok? || NoFault(io) ==> r == Decompressed(w, content, broken, EffectiveRawBound(declared))
    ensures r.Err? && r.error != IoError ==> r == Decompressed(w, content, broken, EffectiveRawBound(declared))
    ensures r == Err(IoError) ==> !NoFault(io)
    ensures r.Ok? ==> !io.open && !io.create && !io.sync
    ensures file == if r.Ok? then Some(content) else None
    ensures written <= content && |written| <= EffectiveRawBound(declared)
  {
    var bound := EffectiveRawBound(declared);
    written := [];
    if io.open {
      return Err(IoError), None, written;
    }
    if broken == Some(0) {
      return Err(ManifestInvalid), None, written;
    }
    if io.create {
      return Err(IoError), None, written;
    }
    var end := if broken.Some? then broken.value else |content|;
    var total, output := 0, [];
    while true
      invariant 0 <= total <= end && total <= bound && output == content[..total]
      decreases end - total
    {
      var capacity := if total >= bound then 1 else if bound - total < 1024 * 1024 then bound - total else 1024 * 1024;
      var wanted := if pace(total) < 1 then 1 else if pace(total) > capacity then capacity else pace(total);
      var read := if wanted < end - total then wanted else end - total;
      written := output;
      if read == 0 && broken.Some? {
        return Err(ManifestInvalid), None, written;
      }
      if read == 0 {
        assert output == content[..|content|] == content;
        if io.sync {
          return Err(IoError), None, written;
        }
        return Ok((w.sha256(output), total)), Some(output), written;
      }
      if total + read > bound {
        return Err(DigestMismatch), None, written;
      }
      if io.write(total) {
        return Err(IoError), None, written;
      }
      output := output + content[total..total + read];
      total := total + read;
    }
  }

  /** A disk that passed every check, and the record to be written beside it. */
  datatype Verified = Verified(raw: seq<byte>, state: ApplianceState)

  function Record(r: Reference, rawSha256: string, rawSize: nat, manifestSha256: string): ApplianceState {
    ApplianceState(STATE_SCHEMA, r.registry, r.repository, r.digest, rawSha256, rawSize, Some(manifestSha256),
                   r.expected)
  }

  /** From the replies to a verified disk, in the order the checks are made. */
  function Verify(w: World, r: Reference, replies: Replies): Result<Verified, ErrorCode> {
    if replies.manifest.None? then Err(DownloadFailed)
    else
      var oci := w.ociManifest(replies.manifest.value);
      if oci.None? || !HasManifestShape(oci.value) then Err(ManifestInvalid)
      else
        var manifestLayer, metadataLayer := FindLayer(oci.value.layers, MANIFEST_LAYER).value,
            FindLayer(oci.value.layers, METADATA_LAYER).value;
        var rawLayer := FindLayer(oci.value.layers, RAW_LAYER).value;
        if replies.manifestBlob.None? then Err(DownloadFailed)
        else if !BlobMatches(w, replies.manifestBlob.value, manifestLayer) then Err(DigestMismatch)
        else
          var manifest := w.applianceManifest(replies.manifestBlob.value);
          if manifest.None? then Err(ManifestInvalid)
          else if replies.metadataBlob.None? then Err(DownloadFailed)
          else if !BlobMatches(w, replies.metadataBlob.value, metadataLayer) then Err(DigestMismatch)
          else
            var metadata := w.releaseMetadata(replies.metadataBlob.value);
            if metadata.None? || !CrossVerified(manifest.value, metadata.value, rawLayer) then Err(ManifestInvalid)
            else VerifyRaw(w, r, replies.rawBlob, manifest.value, manifestLayer, rawLayer)
  }

  function VerifyRaw(w: World, r: Reference, rawBlob: Option<seq<byte>>, manifest: ApplianceManifest,
                     manifestLayer: Layer, rawLayer: Layer): Result<Verified, ErrorCode> {
    if manifest.imageSha256.None? || manifest.imageSize.None? then Err(ManifestInvalid)
    else if manifest.imageSize.value > MAX_APPLIANCE_RAW_BYTES || rawLayer.size > MAX_APPLIANCE_RAW_BYTES
    then Err(ManifestInvalid)
    else if r.expected.Some? && !ExpectedBy(r.expected.value, manifest, manifestLayer) then Err(DigestMismatch)
    else if rawBlob.None? then Err(DownloadFailed)
    else if !BlobMatches(w, rawBlob.value, rawLayer) then Err(ManifestInvalid)
    else
      var raw := w.decompress(rawBlob.value);
      if raw.None? then Err(ManifestInvalid)
      else if |raw.value| > EffectiveRawBound(manifest.imageSize.value) then Err(DigestMismatch)
      else if w.sha256(raw.value) != manifest.imageSha256.value || |raw.value| != manifest.imageSize.value
      then Err(DigestMismatch)
      else Ok(Verified(raw.value, Record(r, w.sha256(raw.value), |raw.value|, Hex(manifestLayer.digest))))
  }

  predicate ExpectedBy(e: Identity, manifest: ApplianceManifest, manifestLayer: Layer) {
    e.manifestSha256 == Hex(manifestLayer.digest) && manifest.imageSha256 == Some(e.rawSha256)
      && manifest.imageSize == Some(e.rawSizeBytes)
  }

  // ----- What verification has seen -----

  /** What was fetched: the manifest with its three layers, and what the two documents say. */
  datatype Fetched = Fetched(oci: OciManifest, manifestLayer: Layer, metadataLayer: Layer, rawLayer: Layer,
                             manifest: ApplianceManifest, metadata: ReleaseMetadata)

  /** A blob of this size and digest. */
  ghost predicate IsBlob(w: World, blob: Option<seq<byte>>, layer: Layer) {
    blob.Some? && |blob.value| == layer.size && layer.digest == "sha256:" + w.sha256(blob.value)
  }

  ghost predicate DigestText(d: string) {
    && |d| == 71 && d[..7] == "sha256:"
    && forall i :: 7 <= i < 71 ==> d[i] in "0123456789abcdef"
  }

  /** A manifest of exactly three layers, one of each kind. */
  ghost predicate ShapeSeen(f: Fetched) {
    && f.oci.schemaVersion == 2 && f.oci.mediaType == "application/vnd.oci.image.manifest.v1+json"
    && f.oci.artifactType == "application/vnd.mottainai.runtime.appliance.v1"
    && |f.oci.layers| == 3 && (forall l :: l in f.oci.layers ==> DigestText(l.digest))
    && f.manifestLayer in f.oci.layers && f.metadataLayer in f.oci.layers && f.rawLayer in f.oci.layers
    && f.manifestLayer.mediaType == "application/vnd.mottainai.runtime.appliance.manifest.v1+json"
    && f.metadataLayer.mediaType == "application/vnd.mottainai.runtime.appliance.release-metadata.v1+json"
    && f.rawLayer.mediaType == "application/vnd.mottainai.runtime.appliance.raw.v1+zstd"
  }

  /** The documents agree with each other and with the layer of the disk. */
  ghost predicate DocumentsAgree(f: Fetched) {
    && f.manifest.sourceRevision.Some? && f.metadata.sourceRevision == f.manifest.sourceRevision
    && f.metadata.canonicalManifest == Some("runtime-appliance-manifest.json")
    && f.metadata.compressed.Some?
    && (var c := f.metadata.compressed.value;
        && c.filename == Some("mottainai-runtime-appliance.raw.zst") && c.format == Some("zstd")
        && c.sha256.Some? && f.rawLayer.digest == "sha256:" + c.sha256.value && c.size == Some(f.rawLayer.size))
  }

  /** All evidence for a disk: manifest, three blobs of their size and digest, documents, and the disk they name. */
  ghost predicate Evidence(w: World, r: Reference, replies: Replies, f: Fetched, raw: seq<byte>) {
    && replies.manifest.Some? && w.ociManifest(replies.manifest.value) == Some(f.oci) && ShapeSeen(f)
    && IsBlob(w, replies.manifestBlob, f.manifestLayer)
    && w.applianceManifest(replies.manifestBlob.value) == Some(f.manifest)
    && IsBlob(w, replies.metadataBlob, f.metadataLayer)
    && w.releaseMetadata(replies.metadataBlob.value) == Some(f.metadata)
    && DocumentsAgree(f)
    && IsBlob(w, replies.rawBlob, f.rawLayer) && f.rawLayer.size <= 0x2_0000_0000
    && w.decompress(replies.rawBlob.value) == Some(raw)
    && f.manifest.imageSha256 == Some(w.sha256(raw)) && f.manifest.imageSize == Some(|raw|) && |raw| <= 0x2_0000_0000
    && (r.expected.Some? ==>
         && r.expected.value.rawSha256 == w.sha256(raw) && r.expected.value.rawSizeBytes == |raw|
         && f.manifestLayer.digest == "sha256:" + r.expected.value.manifestSha256)
  }

  lemma DigestTextMeans(d: string)
    ensures ValidDigest(d) <==> DigestText(d)
    ensures ValidDigest(d) ==> d == "sha256:" + Hex(d)
  {
    if PREFIX <= d {
      assert d == PREFIX + d[7..];
      assert forall i :: 0 <= i < |d[7..]| ==> d[7..][i] == d[i + 7];
    }
    HexCharMeans();
    if ValidDigest(d) {
      forall i | 7 <= i < 71 ensures d[i] in "0123456789abcdef" {
        assert LowerHexChar(d[7..][i - 7]);
      }
    }
    if DigestText(d) {
      forall i | 0 <= i < 64 ensures LowerHexChar(d[7..][i]) {
        assert d[i + 7] in "0123456789abcdef";
      }
      assert d[..7] == PREFIX;
    }
  }

  lemma HexCharMeans()
    ensures forall c :: LowerHexChar(c) <==> c in "0123456789abcdef"
  {
  }

  lemma BlobMeans(w: World, bytes: seq<byte>, layer: Layer)
    requires ValidDigest(layer.digest)
    ensures BlobMatches(w, bytes, layer) <==> IsBlob(w, Some(bytes), layer)
  {
    DigestTextMeans(layer.digest);
    if layer.digest == "sha256:" + w.sha256(bytes) {
      assert Hex(layer.digest) == layer.digest[7..] == w.sha256(bytes);
    }
  }

  /** The layer of a kind is the one there is. */
  lemma OnlyLayer(layers: seq<Layer>, l: Layer)
    requires l in layers && forall i, j :: 0 <= i < j < |layers| ==> layers[i].mediaType != layers[j].mediaType
    ensures FindLayer(layers, l.mediaType) == Some(l)
  {
    var found := FindLayer(layers, l.mediaType).value;
    var i :| 0 <= i < |layers| && layers[i] == l;
    var j :| 0 <= j < |layers| && layers[j] == found;
  }

  /** A disk that is verified comes with all evidence. */
  lemma VerifiedHasEvidence(w: World, r: Reference, replies: Replies) returns (f: Fetched)
    requires Verify(w, r, replies).Ok?
    ensures Evidence(w, r, replies, f, Verify(w, r, replies).value.raw)
    ensures Verify(w, r, replies).value.state.manifestSha256.Some?
    ensures f.manifestLayer.digest == "sha256:" + Verify(w, r, replies).value.state.manifestSha256.value
  {
    var oci := w.ociManifest(replies.manifest.value).value;
    f := Fetched(oci, FindLayer(oci.layers, MANIFEST_LAYER).value, FindLayer(oci.layers, METADATA_LAYER).value,
                 FindLayer(oci.layers, RAW_LAYER).value, w.applianceManifest(replies.manifestBlob.value).value,
                 w.releaseMetadata(replies.metadataBlob.value).value);
    forall l | l in oci.layers ensures DigestText(l.digest) && ValidDigest(l.digest) {
      DigestTextMeans(l.digest);
    }
    BlobMeans(w, replies.manifestBlob.value, f.manifestLayer);
    BlobMeans(w, replies.metadataBlob.value, f.metadataLayer);
    BlobMeans(w, replies.rawBlob.value, f.rawLayer);
    DigestTextMeans(f.manifestLayer.digest);
  }

  /** Three layers of three kinds are one of each. */
  lemma ThreeKinds(f: Fetched)
    requires ShapeSeen(f)
    ensures HasManifestShape(f.oci)
    ensures FindLayer(f.oci.layers, MANIFEST_LAYER) == Some(f.manifestLayer)
    ensures FindLayer(f.oci.layers, METADATA_LAYER) == Some(f.metadataLayer)
    ensures FindLayer(f.oci.layers, RAW_LAYER) == Some(f.rawLayer)
  {
    var layers := f.oci.layers;
    var i :| 0 <= i < 3 && layers[i] == f.manifestLayer;
    var j :| 0 <= j < 3 && layers[j] == f.metadataLayer;
    var k :| 0 <= k < 3 && layers[k] == f.rawLayer;
    assert forall x, y :: 0 <= x < y < |layers| ==> layers[x].mediaType != layers[y].mediaType;
    OnlyLayer(layers, f.manifestLayer);
    OnlyLayer(layers, f.metadataLayer);
    OnlyLayer(layers, f.rawLayer);
    forall x | 0 <= x < |layers| ensures ValidDigest(layers[x].digest) {
      assert layers[x] in layers;
      DigestTextMeans(layers[x].digest);
    }
  }

  /** And all evidence is enough: the disk is verified. */
  lemma EvidenceVerifies(w: World, r: Reference, replies: Replies, f: Fetched, raw: seq<byte>)
    requires Evidence(w, r, replies, f, raw)
    ensures Verify(w, r, replies).Ok? && Verify(w, r, replies).value.raw == raw
  {
    ThreeKinds(f);
    DigestTextMeans(f.manifestLayer.digest);
    DigestTextMeans(f.metadataLayer.digest);
    DigestTextMeans(f.rawLayer.digest);
    BlobMeans(w, replies.manifestBlob.value, f.manifestLayer);
    BlobMeans(w, replies.metadataBlob.value, f.metadataLayer);
    BlobMeans(w, replies.rawBlob.value, f.rawLayer);
    DocumentsCross(f);
    ExpectedMeans(r, f, raw, w.sha256(raw));
  }

  lemma DocumentsCross(f: Fetched)
    requires ShapeSeen(f) && DocumentsAgree(f)
    ensures CrossVerified(f.manifest, f.metadata, f.rawLayer)
  {
    DigestTextMeans(f.rawLayer.digest);
    var hex := f.metadata.compressed.value.sha256.value;
    assert f.rawLayer.digest[7..] == hex;
  }

  lemma ExpectedMeans(r: Reference, f: Fetched, raw: seq<byte>, sha: string)
    requires ValidDigest(f.manifestLayer.digest)
    requires f.manifest.imageSha256 == Some(sha) && f.manifest.imageSize == Some(|raw|)
    requires r.expected.Some? ==>
               && r.expected.value.rawSha256 == sha && r.expected.value.rawSizeBytes == |raw|
               && f.manifestLayer.digest == "sha256:" + r.expected.value.manifestSha256
    ensures r.expected.Some? ==> ExpectedBy(r.expected.value, f.manifest, f.manifestLayer)
  {
    if r.expected.Some? {
      assert f.manifestLayer.digest[7..] == r.expected.value.manifestSha256;
    }
  }

  // ----- Looking at what is there -----

  datatype Classification = Satisfied | Missing | Ambiguous | Incompatible | Repairable

  /** Only the recorded identity is checked against the disk; an expected identity is checked against the record. */
  function Inspect(w: World, s: Slot, r: Reference): Result<Classification, ErrorCode> {
    match s.state
    case UnreadableState => Err(StateAmbiguous)
    case NoState => Ok(if s.raw.RawFile? then Ambiguous else Missing)
    case StateFile(state) =>
      if state.schemaVersion != STATE_SCHEMA || state.registry != r.registry || state.digest != r.digest
         || state.repository != r.repository
      then Ok(Incompatible)
      else if && r.expected.Some?
              && !(state.expected == r.expected && state.manifestSha256 == Some(r.expected.value.manifestSha256))
      then Ok(Incompatible)
      else if !s.raw.RawFile? then Ok(Repairable)
      else if w.sha256(s.raw.bytes) != state.rawSha256 || |s.raw.bytes| != state.rawSizeBytes then Ok(Incompatible)
      else Ok(Satisfied)
  }

  /** What inspection says, from the record and the disk alone. */
  lemma InspectMeans(w: World, s: Slot, r: Reference)
    ensures Inspect(w, s, r).Err? <==> s.state.UnreadableState?
    ensures Inspect(w, s, r).Err? ==> Inspect(w, s, r).error == StateAmbiguous
    ensures Inspect(w, s, r) == Ok(Missing) <==> s.state.NoState? && !s.raw.RawFile?
    ensures Inspect(w, s, r) == Ok(Ambiguous) <==> s.state.NoState? && s.raw.RawFile?
    ensures Inspect(w, s, r) == Ok(Repairable) <==>
              s.state.StateFile? && RecordIsFor(s.state.state, r) && !s.raw.RawFile?
    ensures Inspect(w, s, r) == Ok(Satisfied) <==>
              && s.state.StateFile? && RecordIsFor(s.state.state, r) && s.raw.RawFile?
              && w.sha256(s.raw.bytes) == s.state.state.rawSha256 && |s.raw.bytes| == s.state.state.rawSizeBytes
  {
  }

  /** A record of this schema for exactly this reference, and for its expected identity if it has one. */
  ghost predicate RecordIsFor(state: ApplianceState, r: Reference) {
    && state.schemaVersion == "mottainai.host-bootstrap.appliance.v1"
    && state.registry == r.registry && state.repository == r.repository && state.digest == r.digest
    && (r.expected.Some? ==>
         state.expected == r.expected && state.manifestSha256 == Some(r.expected.value.manifestSha256))
  }

  predicate Alphanumeric(c: char) {
    'a' <= c <= 'z' || 'A' <= c <= 'Z' || '0' <= c <= '9'
  }

  /** Which references are taken. */
  lemma ReferenceMeans(r: Reference)
    ensures ValidReference(r) <==>
              && 1 <= |r.registry| <= 255 && 1 <= |r.repository| <= 255 && DigestText(r.digest)
              && (forall c :: c in r.registry ==> Alphanumeric(c) || c == '-' || c == '.' || c == ':')
              && (forall c :: c in r.repository ==> Alphanumeric(c) || c == '-' || c == '_' || c == '.' || c == '/')
              && (r.expected.Some? ==>
                   && r.expected.value.rawSizeBytes > 0 && r.expected.value.rawSizeBytes <= 0x2_0000_0000
                   && DigestText("sha256:" + r.expected.value.manifestSha256)
                   && DigestText("sha256:" + r.expected.value.rawSha256))
  {
    DigestTextMeans(r.digest);
    CharsMean(r.registry, "-.:");
    CharsMean(r.repository, "-_./");
    if r.expected.Some? {
      HexTextMeans(r.expected.value.manifestSha256);
      HexTextMeans(r.expected.value.rawSha256);
    }
  }

  lemma CharsMean(s: string, extra: string)
    ensures (forall i :: 0 <= i < |s| ==> NameChar(s[i], extra)) <==>
              forall c :: c in s ==> Alphanumeric(c) || c in extra
  {
    forall i | 0 <= i < |s| ensures s[i] in s {
    }
  }

  lemma HexTextMeans(hex: string)
    ensures IsLowercaseSha256(hex) <==> DigestText("sha256:" + hex)
  {
    DigestTextMeans("sha256:" + hex);
    assert ("sha256:" + hex)[7..] == hex;
  }

  // ----- One run -----

  /**
   * Where a run is cut short, by an error of the file system or a crash: before anything managed is touched, while the
   * old directory is removed (its entries go one by one), with it gone, or with the new one in place but no record.
   */
  datatype Stop = NoStop | InStaging | InRemoval(rawLeft: bool, stateLeft: bool) | AfterRemoval | AfterPromotion

  function Promote(root: Root, key: string, v: Verified, stop: Stop): Root {
    match stop
    case InStaging => root
    case InRemoval(rawLeft, stateLeft) =>
      var left := SlotOf(root, key);
      root[key := Slot(if rawLeft then left.raw else NoRaw, if stateLeft then left.state else NoState)]
    case AfterRemoval => root[key := Slot(NoRaw, NoState)]
    case AfterPromotion => root[key := Slot(RawFile(v.raw), NoState)]
    case NoStop => root[key := Slot(RawFile(v.raw), StateFile(v.state))]
  }

  /** The root after a run, and the directory whose disk it returns. */
  function Ensured(w: World, root: Root, r: Reference, replies: Replies, stop: Stop)
    : (Root, Result<string, ErrorCode>)
  {
    if !ValidReference(r) then (root, Err(ReferenceInvalid))
    else Decide(root, Hex(r.digest), Inspect(w, SlotOf(root, Hex(r.digest)), r), Verify(w, r, replies), stop)
  }

  /** Reuse, refuse, or materialize anew, by what inspection says. */
  function Decide(root: Root, key: string, seen: Result<Classification, ErrorCode>,
                  verified: Result<Verified, ErrorCode>, stop: Stop)
    : (Root, Result<string, ErrorCode>)
  {
    match seen
    case Err(e) => (root, Err(e))
    case Ok(Satisfied) => (root, Ok(key))
    case Ok(Incompatible) => (root, Err(StateIncompatible))
    case Ok(_) =>
      match verified
      case Err(e) => (root, Err(e))
      case Ok(v) => (Promote(root, key, v, stop), if stop.NoStop? then Ok(key) else Err(IoError))
  }

  class ApplianceStore {
    const w: World
    var root: Root

    /** Every record that names an expected identity describes the disk of that identity. */
    ghost predicate Valid()
      reads this
    {
      SoundRoot(root)
    }

    constructor (w: World)
      ensures Valid() && this.w == w && root == map[]
    {
      this.w, root := w, map[];
    }

    /**
     * What a run returns names a disk in place; for a bound reference that disk has the expected digest and size, be it
     * fetched or found. What is fetched comes with all evidence for it. A run that ends in an error, or is cut short,
     * leaves every record sound, and no run touches the
     * directory of another digest.
     */
    method EnsureAppliance(r: Reference, replies: Replies, stop: Stop) returns (result: Result<string, ErrorCode>)
      requires Valid()
      modifies this
      ensures Valid()
      ensures (root, result) == Ensured(w, old(root), r, replies, stop)
      ensures forall key :: key != Hex(r.digest) ==> SlotOf(root, key) == SlotOf(old(root), key)
      ensures result.Ok? ==> result.value == Hex(r.digest) && SlotOf(root, result.value).raw.RawFile?
      ensures result.Ok? && r.expected.Some? ==> DiskIs(w, SlotOf(root, result.value).raw, r.expected.value)
      ensures result.Ok? ==> Inspect(w, SlotOf(root, result.value), r) == Ok(Satisfied)
      ensures result.Ok? && Inspect(w, SlotOf(old(root), Hex(r.digest)), r) == Ok(Satisfied) ==> root == old(root)
      ensures result.Ok? && Inspect(w, SlotOf(old(root), Hex(r.digest)), r) != Ok(Satisfied) ==>
                exists f :: Evidence(w, r, replies, f, SlotOf(root, result.value).raw.bytes)
    {
      RunOutcome(w, root, r, replies, stop);
      RunKeeps(w, root, r, replies, stop);
      RunSatisfies(w, root, r, replies, stop);
      result := Ensure(r, replies, stop);
    }

    method Ensure(r: Reference, replies: Replies, stop: Stop) returns (result: Result<string, ErrorCode>)
      modifies this
      ensures (root, result) == Ensured(w, old(root), r, replies, stop)
    {
      if !ValidReference(r) {
        return Err(ReferenceInvalid);
      }
      var key := Hex(r.digest);
      var observation := Inspect(w, SlotOf(root, key), r);
      if observation.Err? {
        return Err(observation.error);
      }
      if observation.value.Satisfied? {
        return Ok(key);
      }
      if observation.value.Incompatible? {
        return Err(StateIncompatible);
      }
      var verified := Verify(w, r, replies);
      if verified.Err? {
        return Err(verified.error);
      }
      PromoteDirectory(key, verified.value, stop);
      return if stop.NoStop? then Ok(key) else Err(IoError);
    }

    /** The old directory goes, the staged one takes its place, the record is written: in this order. */
    method PromoteDirectory(key: string, v: Verified, stop: Stop)
      modifies this
      ensures root == Promote(old(root), key, v, stop)
    {
      if stop.InStaging? {
        return;
      }
      if stop.InRemoval? {
        var left := SlotOf(root, key);
        root := root[key := Slot(if stop.rawLeft then left.raw else NoRaw,
                                 if stop.stateLeft then left.state else NoState)];
        return;
      }
      ghost var before := root;
      root := root[key := Slot(NoRaw, NoState)];
      if stop.AfterRemoval? {
        return;
      }
      root := root[key := Slot(RawFile(v.raw), NoState)];
      assert root == before[key := Slot(RawFile(v.raw), NoState)];
      if stop.AfterPromotion? {
        return;
      }
      root := root[key := Slot(RawFile(v.raw), StateFile(v.state))];
      assert root == before[key := Slot(RawFile(v.raw), StateFile(v.state))];
    }
  }

  // ----- What every run keeps -----

  /** A record that names an expected identity describes the disk of exactly that identity. */
  predicate SoundState(s: ApplianceState) {
    s.expected.Some? ==>
      && s.rawSha256 == s.expected.value.rawSha256 && s.rawSizeBytes == s.expected.value.rawSizeBytes
      && s.manifestSha256 == Some(s.expected.value.manifestSha256)
  }

  ghost predicate SoundRoot(root: Root) {
    forall key :: key in root && root[key].state.StateFile? ==> SoundState(root[key].state.state)
  }

  predicate DiskIs(w: World, raw: RawEntry, e: Identity) {
    raw.RawFile? && w.sha256(raw.bytes) == e.rawSha256 && |raw.bytes| == e.rawSizeBytes
  }

  lemma VerifiedIsSound(w: World, r: Reference, replies: Replies)
    requires Verify(w, r, replies).Ok?
    ensures var v := Verify(w, r, replies).value;
            && SoundState(v.state) && v.state.expected == r.expected
            && v.state.rawSha256 == w.sha256(v.raw) && v.state.rawSizeBytes == |v.raw| <= MAX_APPLIANCE_RAW_BYTES
            && v.state == Record(r, w.sha256(v.raw), |v.raw|, v.state.manifestSha256.value)
            && (r.expected.Some? ==> DiskIs(w, RawFile(v.raw), r.expected.value))
  {
  }

  /** Wherever promotion stops, only the one directory has changed, and its record is still sound. */
  lemma PromoteKeeps(root: Root, key: string, v: Verified, stop: Stop)
    requires SoundRoot(root) && SoundState(v.state)
    ensures SoundRoot(Promote(root, key, v, stop))
    ensures forall other :: other != key ==> SlotOf(Promote(root, key, v, stop), other) == SlotOf(root, other)
    ensures stop.NoStop? ==> SlotOf(Promote(root, key, v, stop), key) == Slot(RawFile(v.raw), StateFile(v.state))
    ensures !stop.NoStop? ==>
              var s, old_ := SlotOf(Promote(root, key, v, stop), key), SlotOf(root, key);
              s == old_ || s == Slot(RawFile(v.raw), NoState)
              || ((s.raw == old_.raw || s.raw.NoRaw?) && (s.state == old_.state || s.state.NoState?))
  {
  }

  lemma ReusedIsExpected(w: World, root: Root, r: Reference)
    requires SoundRoot(root) && Inspect(w, SlotOf(root, Hex(r.digest)), r) == Ok(Satisfied)
    ensures SlotOf(root, Hex(r.digest)).raw.RawFile?
    ensures r.expected.Some? ==> DiskIs(w, SlotOf(root, Hex(r.digest)).raw, r.expected.value)
  {
  }

  lemma DecideKeeps(root: Root, key: string, seen: Result<Classification, ErrorCode>,
                    verified: Result<Verified, ErrorCode>, stop: Stop)
    requires SoundRoot(root) && (verified.Ok? ==> SoundState(verified.value.state))
    ensures var (after, result) := Decide(root, key, seen, verified, stop);
            && SoundRoot(after)
            && (forall other :: other != key ==> SlotOf(after, other) == SlotOf(root, other))
            && (result.Ok? ==>
                 && result.value == key
                 && ((seen == Ok(Satisfied) && after == root)
                     || (verified.Ok? && SlotOf(after, key).raw == RawFile(verified.value.raw))))
  {
    if verified.Ok? {
      PromoteKeeps(root, key, verified.value, stop);
    }
  }

  /**
   * One run keeps the root sound, and what it returns for a bound reference is the expected disk, fetched or cached.
   */
  lemma RunKeeps(w: World, root: Root, r: Reference, replies: Replies, stop: Stop)
    requires SoundRoot(root)
    ensures var (after, result) := Ensured(w, root, r, replies, stop);
            && SoundRoot(after)
            && (forall key :: key != Hex(r.digest) ==> SlotOf(after, key) == SlotOf(root, key))
            && (result.Ok? ==>
                 && result.value == Hex(r.digest) && SlotOf(after, result.value).raw.RawFile?
                 && (r.expected.Some? ==> DiskIs(w, SlotOf(after, result.value).raw, r.expected.value)))
  {
    var key, verified := Hex(r.digest), Verify(w, r, replies);
    var seen := Inspect(w, SlotOf(root, key), r);
    if verified.Ok? {
      VerifiedIsSound(w, r, replies);
    }
    if seen == Ok(Satisfied) {
      ReusedIsExpected(w, root, r);
    }
    DecideKeeps(root, key, seen, verified, stop);
  }

  /** A freshly verified disk with its record is what inspection looks for. */
  lemma VerifiedIsSatisfying(w: World, r: Reference, replies: Replies)
    requires Verify(w, r, replies).Ok?
    ensures var v := Verify(w, r, replies).value;
        Inspect(w, Slot(RawFile(v.raw), StateFile(v.state)), r) == Ok(Satisfied)
  {
    VerifiedIsSound(w, r, replies);
  }

  /** What a successful run leaves is what inspection looks for. */
  lemma RunSatisfies(w: World, root: Root, r: Reference, replies: Replies, stop: Stop)
    ensures var (after, result) := Ensured(w, root, r, replies, stop);
            result.Ok? ==> Inspect(w, SlotOf(after, result.value), r) == Ok(Satisfied)
  {
    var key := Hex(r.digest);
    if Inspect(w, SlotOf(root, key), r) != Ok(Satisfied) && Verify(w, r, replies).Ok? {
      VerifiedIsSatisfying(w, r, replies);
      var v := Verify(w, r, replies).value;
      assert SlotOf(Promote(root, key, v, NoStop), key) == Slot(RawFile(v.raw), StateFile(v.state));
    }
  }

  /**
   * How a run ends. A disk in place that satisfies the record is returned without touching anything; otherwise what is
   * returned was fetched with all evidence, and a run that meets nothing incompatible returns whenever there is some.
   */
  lemma RunOutcome(w: World, root: Root, r: Reference, replies: Replies, stop: Stop)
    ensures var (after, result) := Ensured(w, root, r, replies, stop);
            var seen := Inspect(w, SlotOf(root, Hex(r.digest)), r);
            && (!ValidReference(r) ==> after == root && result == Err(ReferenceInvalid))
            && (ValidReference(r) && seen == Ok(Satisfied) ==> after == root && result == Ok(Hex(r.digest)))
            && (ValidReference(r) && seen == Ok(Incompatible) ==> after == root && result == Err(StateIncompatible))
            && (ValidReference(r) && seen.Err? ==> after == root && result == Err(StateAmbiguous))
            && (result.Ok? && seen != Ok(Satisfied) ==>
                 && SlotOf(after, result.value).raw.RawFile?
                 && exists f :: Evidence(w, r, replies, f, SlotOf(after, result.value).raw.bytes))
            && (&& ValidReference(r) && (seen == Ok(Missing) || seen == Ok(Ambiguous) || seen == Ok(Repairable))
                && stop.NoStop? && (exists f, raw :: Evidence(w, r, replies, f, raw))
                ==> result == Ok(Hex(r.digest)))
  {
    var seen := Inspect(w, SlotOf(root, Hex(r.digest)), r);
    InspectMeans(w, SlotOf(root, Hex(r.digest)), r);
    if Verify(w, r, replies).Ok? {
      var f := VerifiedHasEvidence(w, r, replies);
    }
    if f, raw :| Evidence(w, r, replies, f, raw) {
      EvidenceVerifies(w, r, replies, f, raw);
    }
  }

  /** A successful run is reused by the next one for the same reference, whatever the source would answer. */
  lemma SecondRunReuses(w: World, root: Root, r: Reference, replies: Replies, again: Replies, stop: Stop)
    requires Ensured(w, root, r, replies, NoStop).1.Ok?
    ensures Ensured(w, Ensured(w, root, r, replies, NoStop).0, r, again, stop) == Ensured(w, root, r, replies, NoStop)
  {
    RunSatisfies(w, root, r, replies, NoStop);
  }

  // ----- Histories -----

  /** Between runs, anyone may change or remove the disks, and records may get lost. */
  datatype Event =
    | Run(reference: Reference, replies: Replies, stop: Stop)
    | DiskChanges(key: string, raw: RawEntry)
    | RecordLost(key: string)

  function Step(w: World, root: Root, e: Event): Root {
    match e
    case Run(r, replies, stop) => Ensured(w, root, r, replies, stop).0
    case DiskChanges(key, raw) => root[key := SlotOf(root, key).(raw := raw)]
    case RecordLost(key) => root[key := SlotOf(root, key).(state := NoState)]
  }

  function After(w: World, root: Root, events: seq<Event>): Root
    decreases |events|
  {
    if events == [] then root else After(w, Step(w, root, events[0]), events[1..])
  }

  lemma {:induction false} HistoryKeeps(w: World, root: Root, events: seq<Event>)
    requires SoundRoot(root)
    ensures SoundRoot(After(w, root, events))
    decreases |events|
  {
    if events != [] {
      if events[0].Run? {
        RunKeeps(w, root, events[0].reference, events[0].replies, events[0].stop);
      }
      HistoryKeeps(w, Step(w, root, events[0]), events[1..]);
    }
  }

  /**
   * Over any history from an empty root, with any references, replies, stops and changed disks: whenever a run for a
   * descriptor-bound reference returns, the disk it names has the expected digest and size at that moment.
   */
  lemma ReturnedDiskIsExpected(w: World, events: seq<Event>, r: Reference, replies: Replies, stop: Stop)
    requires r.expected.Some?
    ensures var (after, result) := Ensured(w, After(w, map[], events), r, replies, stop);
            result.Ok? ==> DiskIs(w, SlotOf(after, result.value).raw, r.expected.value)
  {
    HistoryKeeps(w, map[], events);
    RunKeeps(w, After(w, map[], events), r, replies, stop);
  }
}
