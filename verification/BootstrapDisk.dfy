/**
 * The operator key accepted for the bootstrap disk, and the two decisions about that disk: establish it, or verify it
 * untouched.
 */
module BootstrapDisk {
  import opened Wrappers
  import opened Utf8
  import opened Utf16
  import opened Lines
  import opened FatImage
  import opened FatReader

  const MAX_BOOTSTRAP_KEY_BYTES := 8 * 1024
  const MAX_BOOTSTRAP_KEY_LINES := 16

  datatype Error = BootstrapKeyInvalid | BootstrapDiskFailed | IoError

  // ----- One key line -----

  predicate IsControl(c: char) {
    c as int < 0x20 || 0x7f <= c as int < 0xa0
  }

  predicate BlobChar(c: char) {
    'a' <= c <= 'z' || 'A' <= c <= 'Z' || '0' <= c <= '9' || c == '+' || c == '/' || c == '='
  }

  const ALGORITHMS: set<string> := {"ssh-ed25519", "ssh-rsa", "ecdsa-sha2-nistp256"}

  /** The line check as the program makes it: the first two of at most three space-separated fields. */
  predicate LineAccepted(line: string) {
    && line != "" && (forall i :: 0 <= i < |line| ==> !IsControl(line[i]))
    && var fields := Split(line, ' ');
    && |fields| >= 2 && fields[0] in ALGORITHMS
    && fields[1] != "" && forall i :: 0 <= i < |fields[1]| ==> BlobChar(fields[1][i])
  }

  predicate KeyParts(line: string, algorithm: string, blob: string, comment: string) {
    && algorithm in ALGORITHMS && blob != "" && (forall i :: 0 <= i < |blob| ==> BlobChar(blob[i]))
    && (line == algorithm + [' '] + blob || line == algorithm + [' '] + blob + [' '] + comment)
  }

  /** The grammar of a key line: algorithm, blob and, after another space, any printable comment. */
  ghost predicate KeyLine(line: string) {
    && (forall i :: 0 <= i < |line| ==> !IsControl(line[i]))
    && exists algorithm: string, blob: string, comment: string :: KeyParts(line, algorithm, blob, comment)
  }

  lemma LineGrammar(line: string)
    ensures LineAccepted(line) <==> KeyLine(line)
  {
    if LineAccepted(line) {
      AcceptedHasParts(line);
    }
    if KeyLine(line) {
      var algorithm: string, blob: string, comment: string :| KeyParts(line, algorithm, blob, comment);
      PartsAreAccepted(line, algorithm, blob, comment);
    }
  }

  lemma AcceptedHasParts(line: string)
    requires LineAccepted(line)
    ensures KeyLine(line)
  {
    var fields := Split(line, ' ');
    JoinOfSplit(line, ' ');
    var algorithm, blob, comment := fields[0], fields[1], Join(fields[2..], ' ');
    assert fields[1..][1..] == fields[2..];
    assert line == algorithm + [' '] + Join(fields[1..], ' ');
    if |fields| > 2 {
      assert line == algorithm + [' '] + blob + [' '] + comment;
    } else {
      assert line == algorithm + [' '] + blob;
    }
    assert KeyParts(line, algorithm, blob, comment);
  }

  lemma PartsAreAccepted(line: string, algorithm: string, blob: string, comment: string)
    requires KeyParts(line, algorithm, blob, comment) && forall i :: 0 <= i < |line| ==> !IsControl(line[i])
    ensures LineAccepted(line)
  {
    assert ' ' !in algorithm;
    assert ' ' !in blob;
    SplitWithoutSeparator(blob, ' ');
    SplitAtSeparator(blob, ' ', comment);
    SplitAtSeparator(algorithm, ' ', blob);
    SplitAtSeparator(algorithm, ' ', blob + [' '] + comment);
    assert algorithm + [' '] + blob + [' '] + comment == algorithm + [' '] + (blob + [' '] + comment);
    assert Split(line, ' ')[0] == algorithm && Split(line, ' ')[1] == blob;
  }

  lemma NoLineBreak(line: string)
    requires LineAccepted(line)
    ensures '\n' !in line
  {
  }

  // ----- The whole key text -----

  /** Lines the program looks at: everything between line breaks, less a final empty piece. */
  function KeyLines(value: string): seq<string> {
    var parts := Split(value, '\n');
    if parts[|parts| - 1] == "" then parts[..|parts| - 1] else parts
  }

  predicate LinesAccepted(lines: seq<string>) {
    1 <= |lines| <= MAX_BOOTSTRAP_KEY_LINES && AllAccepted(lines)
  }

  function Normalized(lines: seq<string>): string {
    Join(lines, '\n') + ['\n']
  }

  predicate KeyAccepted(value: string) {
    && value != "" && ByteLength(value) <= MAX_BOOTSTRAP_KEY_BYTES
    && LinesAccepted(KeyLines(value)) && ByteLength(Normalized(KeyLines(value))) <= MAX_BOOTSTRAP_KEY_BYTES
  }

  predicate AllAccepted(lines: seq<string>) {
    forall i :: 0 <= i < |lines| ==> LineAccepted(lines[i])
  }

  lemma AcceptedLonger(lines: seq<string>, line: string)
    ensures AllAccepted(lines + [line]) <==> AllAccepted(lines) && LineAccepted(line)
  {
    if AllAccepted(lines + [line]) {
      assert (lines + [line])[|lines|] == line;
      assert forall i :: 0 <= i < |lines| ==> (lines + [line])[i] == lines[i];
    }
  }

  lemma AcceptedPrefix(lines: seq<string>, n: nat)
    requires n <= |lines| && !AllAccepted(lines[..n])
    ensures !AllAccepted(lines)
  {
    var i :| 0 <= i < n && !LineAccepted(lines[..n][i]);
    assert lines[i] == lines[..n][i];
  }

  /** The accepted lines of a key text, or nothing as soon as one line is refused. */
  method CollectLines(value: string) returns (r: Option<seq<string>>)
    ensures r == if AllAccepted(KeyLines(value)) then Some(KeyLines(value)) else None
  {
    var lines: seq<string> := [];
    var splitLines := Split(value, '\n');
    for index := 0 to |splitLines|
      invariant lines == if index == |splitLines| then KeyLines(value) else splitLines[..index]
      invariant AllAccepted(lines)
    {
      var line := splitLines[index];
      if index == |splitLines| - 1 && line == "" {
        continue;
      }
      AcceptedLonger(lines, line);
      assert lines + [line] == splitLines[..index + 1];
      if !LineAccepted(line) {
        if index + 1 == |splitLines| {
          EmptyLineRefused();
          assert KeyLines(value) == splitLines[..index + 1];
        } else {
          assert KeyLines(value)[..index + 1] == splitLines[..index + 1];
          AcceptedPrefix(KeyLines(value), index + 1);
        }
        return None;
      }
      lines := lines + [line];
      assert index + 1 == |splitLines| ==> splitLines[..index + 1] == splitLines;
    }
    return Some(lines);
  }

  lemma EmptyLineRefused()
    ensures !LineAccepted("")
  {
  }

  method ValidatePublicKeyText(value: string) returns (r: Result<string, Error>)
    ensures r == if KeyAccepted(value) then Ok(Normalized(KeyLines(value))) else Err(BootstrapKeyInvalid)
  {
    EncodeLength(value);
    if value == "" || |Encode(value)| > MAX_BOOTSTRAP_KEY_BYTES {
      return Err(BootstrapKeyInvalid);
    }
    var collected := CollectLines(value);
    if collected.None? {
      return Err(BootstrapKeyInvalid);
    }
    var lines := collected.value;
    if |lines| == 0 || |lines| > MAX_BOOTSTRAP_KEY_LINES {
      return Err(BootstrapKeyInvalid);
    }
    var normalized := Join(lines, '\n') + ['\n'];
    EncodeLength(normalized);
    if |Encode(normalized)| > MAX_BOOTSTRAP_KEY_BYTES {
      return Err(BootstrapKeyInvalid);
    }
    return Ok(normalized);
  }

  /** Normalizing only ever adds a missing final line break. */
  lemma NormalizedText(value: string)
    requires KeyAccepted(value)
    ensures Normalized(KeyLines(value)) == if value[|value| - 1] == '\n' then value else value + ['\n']
  {
    var parts := Split(value, '\n');
    JoinOfSplit(value, '\n');
    var last := |parts| - 1;
    LastPart(value, '\n');
    if parts[last] == "" {
      JoinLast(parts, '\n');
      DropEmpty(Join(parts[..last], '\n'));
    }
  }

  lemma DropEmpty(front: string)
    ensures front + ['\n'] + "" == front + ['\n']
  {
  }

  /** A text ends with the separator exactly when its last piece is empty. */
  lemma {:induction false} LastPart(s: string, separator: char)
    requires s != ""
    ensures var parts := Split(s, separator); parts[|parts| - 1] == "" <==> s[|s| - 1] == separator
  {
    if |s| > 1 {
      LastPart(s[1..], separator);
    }
  }

  lemma {:induction false} JoinLast(parts: seq<string>, separator: char)
    requires |parts| >= 2
    ensures Join(parts, separator) == Join(parts[..|parts| - 1], separator) + [separator] + parts[|parts| - 1]
  {
    if |parts| > 2 {
      JoinLast(parts[1..], separator);
      assert parts[1..][..|parts| - 2] == parts[..|parts| - 1][1..];
    }
  }

  /** The printed parts of a key line; blob characters are letters, digits, plus, slash and equals sign. */
  ghost predicate PrintedParts(line: string, algorithm: string, blob: string, comment: string) {
    && (algorithm == "ssh-ed25519" || algorithm == "ssh-rsa" || algorithm == "ecdsa-sha2-nistp256")
    && blob != ""
    && (forall c :: c in blob ==> 65 <= c as int <= 90 || 97 <= c as int <= 122 || 48 <= c as int <= 57
                                  || c as int == 43 || c as int == 47 || c as int == 61)
    && (line == algorithm + " " + blob || line == algorithm + " " + blob + " " + comment)
  }

  /** A key line without naming any check: printable characters only, in two or three parts. */
  ghost predicate PrintedLine(line: string) {
    && (forall c :: c in line ==> 32 <= c as int < 127 || 160 <= c as int)
    && exists algorithm: string, blob: string, comment: string :: PrintedParts(line, algorithm, blob, comment)
  }

  /** A key text: one to sixteen lines, a break after each but perhaps the last, in at most 8192 bytes. */
  ghost predicate KeyText(value: string, lines: seq<string>) {
    && 1 <= |lines| <= 16 && (forall line :: line in lines ==> PrintedLine(line))
    && (value == Join(lines, '\n') || value == Join(lines, '\n') + "\n")
    && |Encode(Join(lines, '\n') + "\n")| <= 8192
  }

  lemma PrintedBlob(blob: string)
    ensures (forall i :: 0 <= i < |blob| ==> BlobChar(blob[i])) <==>
            forall c :: c in blob ==> 65 <= c as int <= 90 || 97 <= c as int <= 122 || 48 <= c as int <= 57
                                      || c as int == 43 || c as int == 47 || c as int == 61
  {
    assert forall i :: 0 <= i < |blob| ==> blob[i] in blob;
  }

  lemma PrintedSame(line: string, algorithm: string, blob: string, comment: string)
    ensures PrintedParts(line, algorithm, blob, comment) <==> KeyParts(line, algorithm, blob, comment)
  {
    PrintedBlob(blob);
    assert [' '] == " ";
  }

  lemma PrintedCharacters(line: string)
    ensures (forall i :: 0 <= i < |line| ==> !IsControl(line[i])) <==>
            forall c :: c in line ==> 32 <= c as int < 127 || 160 <= c as int
  {
    assert forall i :: 0 <= i < |line| ==> line[i] in line;
  }

  lemma PrintedIsAccepted(line: string)
    ensures LineAccepted(line) <==> PrintedLine(line)
  {
    LineGrammar(line);
    PrintedCharacters(line);
    forall algorithm: string, blob: string, comment: string
      ensures PrintedParts(line, algorithm, blob, comment) <==> KeyParts(line, algorithm, blob, comment) {
      PrintedSame(line, algorithm, blob, comment);
    }
  }

  /** Exactly the key texts are accepted, and what is kept of one is its lines with a break after each. */
  lemma KeyGrammar(value: string)
    ensures KeyAccepted(value) <==> exists lines :: KeyText(value, lines)
    ensures forall lines :: KeyText(value, lines) ==>
              KeyLines(value) == lines && Normalized(KeyLines(value)) == Join(lines, '\n') + "\n"
  {
    if KeyAccepted(value) {
      AcceptedIsText(value);
    }
    forall lines | KeyText(value, lines)
      ensures KeyAccepted(value) && KeyLines(value) == lines
      ensures Normalized(KeyLines(value)) == Join(lines, '\n') + "\n" {
      TextIsAccepted(value, lines);
    }
  }

  lemma AcceptedIsText(value: string)
    requires KeyAccepted(value)
    ensures KeyText(value, KeyLines(value))
  {
    var lines := KeyLines(value);
    forall line | line in lines ensures PrintedLine(line) {
      PrintedIsAccepted(line);
    }
    NormalizedText(value);
    EncodeLength(Normalized(lines));
    if value[|value| - 1] != '\n' {
      assert value == (value + ['\n'])[..|value|] == (Join(lines, '\n') + ['\n'])[..|value|] == Join(lines, '\n');
    }
  }

  lemma TextIsAccepted(value: string, lines: seq<string>)
    requires KeyText(value, lines)
    ensures KeyAccepted(value) && KeyLines(value) == lines && Normalized(lines) == Join(lines, '\n') + "\n"
  {
    forall line | line in lines ensures LineAccepted(line) && '\n' !in line && line != "" {
      PrintedIsAccepted(line);
      NoLineBreak(line);
    }
    var front := Join(lines, '\n');
    SplitOfJoin(lines, '\n');
    var parts := lines + [""];
    JoinLast(parts, '\n');
    assert parts[..|lines|] == lines;
    assert Join(parts, '\n') == front + "\n" + "" == front + "\n";
    SplitOfJoin(parts, '\n');
    assert lines[0] in lines && lines[|lines| - 1] in lines;
    assert KeyLines(value) == lines;
    EncodeLength(Normalized(lines));
    EncodeConcat(front, "\n");
  }

  /** Normalized keys are fixed points of validation. */
  lemma NormalizationIdempotent(value: string)
    requires KeyAccepted(value)
    ensures var normal := Normalized(KeyLines(value)); KeyAccepted(normal) && Normalized(KeyLines(normal)) == normal
  {
    var lines := KeyLines(value);
    var normal := Normalized(lines);
    forall line | line in lines ensures '\n' !in line {
      var i :| 0 <= i < |lines| && lines[i] == line;
      NoLineBreak(line);
    }
    var parts := lines + [""];
    JoinLast(parts, '\n');
    assert parts[..|lines|] == lines;
    assert Join(parts, '\n') == normal + "" == normal;
    SplitOfJoin(parts, '\n');
    assert KeyLines(normal) == lines;
  }

  // ----- The disk -----

  datatype FileState = Missing | NotRegular | Regular(bytes: seq<byte>)

  /** The bytes of the file a key is stored as; always far below what the image holds. */
  function KeyContent(key: string): (content: seq<byte>)
    requires KeyAccepted(key)
    ensures |content| <= MAX_BOOTSTRAP_KEY_BYTES <= CAPACITY
  {
    EncodeLength(Normalized(KeyLines(key)));
    Encode(Normalized(KeyLines(key)))
  }

  /** The bytes the disk must hold for a key. */
  function ImageOfKey(key: string): (image: seq<byte>)
    requires KeyAccepted(key)
  {
    Image(KeyContent(key))
  }

  /** The image of a key that is accepted; there is one for each. */
  method KeyImage(key: string) returns (r: Result<seq<byte>, Error>)
    ensures r == if KeyAccepted(key) then Ok(ImageOfKey(key)) else Err(BootstrapKeyInvalid)
    ensures r.Ok? ==> |r.value| == IMAGE_BYTES
  {
    var validated := ValidatePublicKeyText(key);
    if validated.Err? {
      return Err(validated.error);
    }
    EncodeLength(validated.value);
    var built := BuildFat16Image(Encode(validated.value));
    if built.Err? {
      return Err(BootstrapDiskFailed);
    }
    r := Ok(built.value);
  }

  /** Which file operations the operating system refuses in one call. */
  datatype Faults = Faults(directory: bool, inspect: bool, read: bool, write: bool)

  class ManagedDisk {
    var file: FileState
    /** Completed promotions of a new image. */
    var writes: nat

    constructor (initial: FileState)
      ensures file == initial && writes == 0
    {
      file, writes := initial, 0;
    }

    /** Writes a staged file and renames it over the disk; a failure leaves the disk as it was. */
    method WriteAtomicImage(image: seq<byte>, fails: bool) returns (r: Result<(), Error>)
      modifies this
      ensures fails ==> r == Err(IoError) && file == old(file) && writes == old(writes)
      ensures !fails ==> r == Ok(()) && file == Regular(image) && writes == old(writes) + 1
    {
      if fails {
        return Err(IoError);
      }
      file, writes := Regular(image), writes + 1;
      return Ok(());
    }

    method EnsureBootstrapDisk(key: string, faults: Faults) returns (r: Result<(), Error>)
      modifies this
      ensures r.Ok? ==> KeyAccepted(key) && file == Regular(ImageOfKey(key))
      ensures r.Err? ==> file == old(file) && writes == old(writes)
      ensures r.Ok? ==> writes == old(writes) + if old(file) == Regular(ImageOfKey(key)) then 0 else 1
      ensures !KeyAccepted(key) ==> r == Err(BootstrapKeyInvalid)
      ensures KeyAccepted(key) && faults == Faults(false, false, false, false) ==>
                r == if old(file) == NotRegular then Err(BootstrapDiskFailed) else Ok(())
    {
      var built := KeyImage(key);
      if built.Err? {
        return Err(built.error);
      }
      var image := built.value;
      if faults.directory || faults.inspect {
        return Err(IoError);
      }
      match file
      case Regular(bytes) =>
        var same := false;
        if |bytes| == IMAGE_BYTES {
          if faults.read {
            return Err(IoError);
          }
          same := bytes == image;
        }
        if !same {
          r := WriteAtomicImage(image, faults.write);
          return;
        }
        return Ok(());
      case NotRegular =>
        return Err(BootstrapDiskFailed);
      case Missing =>
        r := WriteAtomicImage(image, faults.write);
    }

    method VerifyBootstrapDisk(key: string, faults: Faults) returns (r: Result<(), Error>)
      ensures r.Ok? ==> KeyAccepted(key) && file == Regular(ImageOfKey(key))
      ensures KeyAccepted(key) && file == Regular(ImageOfKey(key)) && !faults.inspect && !faults.read ==> r == Ok(())
    {
      var built := KeyImage(key);
      if built.Err? {
        return Err(built.error);
      }
      if faults.inspect || !file.Regular? || |file.bytes| != IMAGE_BYTES {
        return Err(BootstrapDiskFailed);
      }
      if faults.read {
        return Err(IoError);
      }
      if file.bytes != built.value {
        return Err(BootstrapDiskFailed);
      }
      return Ok(());
    }
  }

  /** A disk carries one key: it verifies against two keys only when they normalize alike. */
  lemma DiskCarriesOneKey(first: string, second: string)
    requires KeyAccepted(first) && KeyAccepted(second)
    ensures ImageOfKey(first) == ImageOfKey(second) <==> Normalized(KeyLines(first)) == Normalized(KeyLines(second))
  {
    if ImageOfKey(first) == ImageOfKey(second) {
      ImageInjective(KeyContent(first), KeyContent(second));
      EncodeInjective(Normalized(KeyLines(first)), Normalized(KeyLines(second)));
    }
  }

  /** What a guest reads from a verified disk is the normalized key, from either FAT copy. */
  lemma GuestReadsKey(key: string, copy: nat)
    requires KeyAccepted(key) && copy < FAT_COUNT
    ensures ReadFile(ImageOfKey(key), Units("authorized_keys"), copy) == Some(Encode(Normalized(KeyLines(key))))
  {
    WriteThenRead(KeyContent(key), copy);
  }
}
