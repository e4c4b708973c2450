/**
 * Atomic replacement of a file through a temporary one, under any fault of any step and a crash at any point.
 */
module AtomicReplace {
  import opened Wrappers
  import opened Utf8

  datatype Inode = Inode(content: seq<byte>, mode: nat)

  /** A file as it reads now, and whether the disk holds it like that. */
  datatype File = File(inode: Inode, synced: bool)

  /** The two directory entries that matter, and what the destination's entry is on the disk. */
  datatype Disk = Disk(dest: Option<File>, temp: Option<File>, durable: Option<File>)

  // ----- Crashes -----

  /** What an entry may turn out to be after a crash: whatever was not synced may hold anything. */
  predicate MayRead(entry: Option<File>, r: Option<Inode>) {
    match entry
    case None => r.None?
    case Some(f) => r.Some? && (f.synced ==> r.value == f.inode)
  }

  /** A crash leaves the destination's entry as it is on the disk, or as it is now. */
  predicate AfterCrash(d: Disk, r: Option<Inode>) {
    MayRead(d.durable, r) || MayRead(d.dest, r)
  }

  ghost predicate CrashSafe(d: Disk, original: Option<Inode>, replacement: Inode) {
    forall r :: AfterCrash(d, r) ==> r == original || r == Some(replacement)
  }

  // ----- Faults -----

  /** A step is done, is stopped before it acts, or fails while acting. */
  datatype Fault = Done | Injected | Failed

  datatype Script = Script(
    directoryCreate: Fault,
    statFails: bool,
    collisions: nat,
    tempCreate: Fault,
    tempWrite: Fault,
    written: nat,
    tempPermission: Fault,
    tempSync: Fault,
    tempClose: Fault,
    rename: Fault,
    directoryOpen: Fault,
    directorySync: Fault,
    directoryClose: Fault,
    cleanup: Fault,
    cleanupRetry: Fault,
    cleanupDirect: Fault)

  datatype FailureKind = PreEffect | PostEffectDurabilityUncertain

  datatype Outcome = Replaced(cleanupReported: bool) | Unclassified | Classified(kind: FailureKind)

  const MAX_ATTEMPTS := 10
  const DEFAULT_MODE := 0x1b6

  /** The nine permission bits of a mode. */
  const PERMISSIONS := 0x200

  /**
   * The permission bits the replacement gets: those asked for, else those of the file it replaces, else what creation
   * gives.
   */
  function FinalMode(asked: Option<nat>, original: Option<Inode>, statFails: bool, masked: nat): nat {
    if asked.Some? then asked.value
    else if original.Some? && !statFails then original.value.mode % PERMISSIONS
    else masked
  }

  function Entry(i: Option<Inode>): Option<File> {
    if i.None? then None else Some(File(i.value, true))
  }

  function Reads(f: Option<File>): Option<Inode> {
    if f.None? then None else Some(f.value.inode)
  }

  // ----- The replacement -----

  class TargetDirectory {
    var dest: Option<File>
    var temp: Option<File>
    var durable: Option<File>
    /** Every state the disk has been in. */
    ghost var history: seq<Disk>
    ghost const original: Option<Inode>
    ghost const replacement: Inode

    ghost function View(): Disk
      reads this
    {
      Disk(dest, temp, durable)
    }

    ghost predicate Valid()
      reads this
    {
      && (dest == Entry(original) || dest == Some(File(replacement, true)))
      && (durable == Entry(original) || durable == dest)
      && forall d :: d in history ==> CrashSafe(d, original, replacement)
    }

    ghost predicate Untouched()
      reads this
    {
      dest == Entry(original) && durable == Entry(original)
    }

    constructor (original: Option<Inode>, ghost replacement: Inode)
      ensures Valid() && Untouched() && temp.None? && history == []
      ensures this.original == original && this.replacement == replacement
    {
      dest, temp, durable := Entry(original), None, Entry(original);
      history := [];
      this.original, this.replacement := original, replacement;
    }

    /** The state after a step joins the history. */
    ghost method Remember()
      requires Valid()
      modifies this`history
      ensures Valid() && history == old(history) + [View()]
    {
      history := history + [View()];
    }

    /** Up to ten names are tried; any other error, or ten collisions, ends the replacement. */
    method CreateTemporaryFile(collisions: nat, fault: Fault, mode: nat) returns (ok: bool)
      requires Valid() && temp.None?
      modifies this`temp, this`history
      ensures Valid() && (ok <==> collisions < MAX_ATTEMPTS && fault.Done?)
      ensures temp == if ok then Some(File(Inode([], mode), false)) else None
      ensures old(history) <= history
    {
      var attempt := 0;
      while attempt < MAX_ATTEMPTS && attempt < collisions
        invariant attempt <= MAX_ATTEMPTS && attempt <= collisions
      {
        attempt := attempt + 1;
      }
      ok := attempt < MAX_ATTEMPTS && fault.Done?;
      if ok {
        temp := Some(File(Inode([], mode), false));
        Remember();
      }
    }

    /** A failing write leaves some front of the content behind. */
    method WriteTemp(content: seq<byte>, fault: Fault, written: nat) returns (ok: bool)
      requires Valid() && temp.Some?
      modifies this`temp, this`history
      ensures Valid() && (ok <==> fault.Done?) && temp.Some?
      ensures ok ==> temp == Some(File(Inode(content, old(temp).value.inode.mode), false))
      ensures old(history) <= history
    {
      ok := fault.Done?;
      if fault.Injected? {
        return;
      }
      for n := 0 to if fault.Done? || written > |content| then |content| else written
        invariant Valid() && temp.Some? && temp.value.inode.mode == old(temp).value.inode.mode
            && old(history) <= history
      {
        temp := Some(File(Inode(content[..n], temp.value.inode.mode), false));
        Remember();
      }
      if ok {
        temp := Some(File(Inode(content, temp.value.inode.mode), false));
        Remember();
      }
    }

    method ChangeMode(mode: nat, fault: Fault) returns (ok: bool)
      requires Valid() && temp.Some?
      modifies this`temp, this`history
      ensures Valid() && (ok <==> fault.Done?)
      ensures temp == if ok then Some(File(old(temp).value.inode.(mode := mode), false)) else old(temp)
      ensures old(history) <= history
    {
      ok := fault.Done?;
      if ok {
        temp := Some(File(temp.value.inode.(mode := mode), false));
        Remember();
      }
    }

    method SyncTemp(fault: Fault) returns (ok: bool)
      requires Valid() && temp.Some?
      modifies this`temp, this`history
      ensures Valid() && (ok <==> fault.Done?)
      ensures temp == if ok then Some(File(old(temp).value.inode, true)) else old(temp)
      ensures old(history) <= history
    {
      ok := fault.Done?;
      if ok {
        temp := Some(File(temp.value.inode, true));
        Remember();
      }
    }

    method Rename(fault: Fault) returns (ok: bool)
      requires Valid() && temp == Some(File(replacement, true))
      modifies this`dest, this`temp, this`history
      ensures Valid() && (ok <==> fault.Done?)
      ensures if ok then dest == old(temp) && temp.None? else dest == old(dest) && temp == old(temp)
      ensures old(history) <= history
    {
      ok := fault.Done?;
      if ok {
        dest, temp := temp, None;
        Remember();
      }
    }

    /** Opening, syncing and closing the directory; after the sync the disk has its entries. */
    method SyncParentDirectory(open: Fault, sync: Fault, close: Fault) returns (ok: bool)
      requires Valid()
      modifies this`durable, this`history
      ensures Valid() && (ok <==> open.Done? && sync.Done? && close.Done?)
      ensures durable == if open.Done? && sync.Done? then dest else old(durable)
      ensures old(history) <= history
    {
      if !open.Done? || !sync.Done? {
        return false;
      }
      durable := dest;
      Remember();
      ok := close.Done?;
    }

    method RemoveTemp(fault: Fault) returns (ok: bool)
      requires Valid()
      modifies this`temp, this`history
      ensures Valid() && (ok <==> fault.Done?) && temp == if ok then None else old(temp)
      ensures old(history) <= history
    {
      ok := fault.Done?;
      if ok {
        temp := None;
        Remember();
      }
    }

    /** Up to three attempts; an error is reported when the first two fail, even if the last one then succeeds. */
    method CleanupTemporaryFile(first: Fault, retry: Fault, direct: Fault) returns (reported: bool)
      requires Valid()
      modifies this`temp, this`history
      ensures Valid() && (reported <==> !first.Done? && !retry.Done?)
      ensures temp == if first.Done? || retry.Done? || direct.Done? then None else old(temp)
      ensures old(history) <= history
    {
      var ok := RemoveTemp(first);
      if ok {
        return false;
      }
      ok := RemoveTemp(retry);
      if ok {
        return false;
      }
      ok := RemoveTemp(direct);
      return true;
    }

    /** The steps whose errors are classified, up to the first that fails. */
    method Replace(content: seq<byte>, mode: Option<nat>, s: Script) returns (ok: bool, renamed: bool)
      requires Valid() && Untouched() && temp.Some?
      requires replacement == Inode(content, if mode.Some? then mode.value else temp.value.inode.mode)
      modifies this
      ensures Valid() && old(history) <= history && (ok ==> renamed)
      ensures renamed ==> dest == Some(File(replacement, true)) && temp.None?
      ensures !renamed ==> Untouched()
      ensures ok ==> durable == dest
      ensures renamed <==> s.tempWrite.Done? && (mode.None? || s.tempPermission.Done?) && s.tempSync.Done?
                           && s.tempClose.Done? && s.rename.Done?
      ensures ok <==> renamed && s.directoryOpen.Done? && s.directorySync.Done? && s.directoryClose.Done?
    {
      renamed := false;
      ok := WriteTemp(content, s.tempWrite, s.written);
      if !ok {
        return;
      }
      if mode.Some? {
        ok := ChangeMode(mode.value, s.tempPermission);
        if !ok {
          return;
        }
      }
      ok := SyncTemp(s.tempSync);
      if !ok {
        return;
      }
      if !s.tempClose.Done? {
        return false, false;
      }
      ok := Rename(s.rename);
      if !ok {
        return;
      }
      renamed := true;
      ok := SyncParentDirectory(s.directoryOpen, s.directorySync, s.directoryClose);
    }

    /**
     * Under every script of faults: the error class tells whether the destination is old or new, a normal return means
     * new and on the disk, a temporary file is left only when every removal failed, and a crash at any moment leaves
     * the old file or the new one, content and mode.
     */
    method ReplaceFileAtomically(content: seq<byte>, asked: Option<nat>, masked: nat -> nat, s: Script)
        returns (outcome: Outcome)
      requires Valid() && Untouched() && temp.None? && history == []
      requires replacement == Inode(content, FinalMode(asked, original, s.statFails, masked(DEFAULT_MODE)))
      modifies this
      ensures forall d :: d in history ==> CrashSafe(d, original, replacement)
      ensures CrashSafe(View(), original, replacement)
      ensures outcome.Unclassified? ==> Untouched() && temp.None?
      ensures outcome == Classified(PreEffect) ==> Untouched()
      ensures outcome == Classified(PostEffectDurabilityUncertain) ==> Reads(dest) == Some(replacement)
      ensures outcome.Replaced? ==>
          Reads(dest) == Some(replacement) && durable == dest
          && forall r :: AfterCrash(View(), r) ==> r == Some(replacement)
      ensures temp.Some? ==> !s.cleanup.Done? && !s.cleanupRetry.Done? && !s.cleanupDirect.Done? && Untouched()
      ensures Reads(dest) == Some(replacement) ==>
          && replacement.content == content
          && (asked.Some? ==> replacement.mode == asked.value)
          && (asked.None? && (original.None? || s.statFails) ==> replacement.mode == masked(438))
          && (asked.None? && original.Some? && !s.statFails ==> replacement.mode == original.value.mode % 512)
      ensures outcome.Unclassified? <==> !s.directoryCreate.Done? || s.collisions >= 10 || !s.tempCreate.Done?
      ensures var chosen := asked.Some? || (original.Some? && !s.statFails);
              var renamed := && s.tempWrite.Done? && (chosen ==> s.tempPermission.Done?) && s.tempSync.Done?
                             && s.tempClose.Done? && s.rename.Done?;
              var synced := s.directoryOpen.Done? && s.directorySync.Done? && s.directoryClose.Done?;
              !outcome.Unclassified? ==>
                  outcome == if !renamed then Classified(PreEffect)
                             else if !synced then Classified(PostEffectDurabilityUncertain)
                             else Replaced(!s.cleanup.Done? && !s.cleanupRetry.Done?)
    {
      if !s.directoryCreate.Done? {
        return Unclassified;
      }
      var mode := if asked.Some? then asked
                  else if dest.Some? && !s.statFails then Some(dest.value.inode.mode % PERMISSIONS) else None;
      var created := CreateTemporaryFile(s.collisions, s.tempCreate,
                                         masked(if mode.Some? then mode.value else DEFAULT_MODE));
      if !created {
        return Unclassified;
      }
      var ok, renamed := Replace(content, mode, s);
      var reported := CleanupTemporaryFile(s.cleanup, s.cleanupRetry, s.cleanupDirect);
      outcome := if ok then Replaced(reported)
                 else Classified(if renamed then PostEffectDurabilityUncertain else PreEffect);
    }
  }
}
