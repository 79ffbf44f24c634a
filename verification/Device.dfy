/**
 The two files of a log as a device.  What each operation does is decided by
 oracles: a write may be short, interrupted or refused, a synchronization may
 fail.  Interruptions are finitely many.
 */
module Device {
  import opened Basics
  import opened Bytes
  import opened LogFormat
  import opened CrashProtocol

  datatype WriteOutcome = Wrote(n: nat) | Interrupted | Refused

  datatype Target = MainLog | Journal

  // file with data written at offset; a gap before offset reads as zeros
  function Overlay(file: seq<byte>, offset: nat, data: seq<byte>): (r: seq<byte>)
  {
    if |data| == 0 then file
    else
      var base := if |file| < offset then file + seq(offset - |file|, i => 0) else file;
      base[..offset] + data
        + (if offset + |data| < |base| then base[offset + |data|..] else [])
  }

  // Exactly the range of the data changes.
  lemma OverlayMeaning(file: seq<byte>, offset: nat, data: seq<byte>)
    requires offset <= |file|
    ensures var r := Overlay(file, offset, data);
      && |r| == (if offset + |data| < |file| then |file| else offset + |data|)
      && r[offset..offset + |data|] == data
      && forall i :: 0 <= i < |file| && !(offset <= i < offset + |data|) ==> r[i] == file[i]
  {
  }

  // Two consecutive writes are one.
  lemma OverlayTwice(file: seq<byte>, offset: nat, a: seq<byte>, b: seq<byte>)
    ensures Overlay(Overlay(file, offset, a), offset + |a|, b) == Overlay(file, offset, a + b)
  {
    if |a| == 0 {
      assert a + b == b;
    } else if |b| == 0 {
      assert a + b == a;
    } else {
      var base := if |file| < offset then file + seq(offset - |file|, i => 0) else file;
      var once := Overlay(file, offset, a);
      var end := offset + |a|;
      assert once[..end] == base[..offset] + a;
      if end + |b| < |base| {
        assert once[end + |b|..] == base[end + |b|..];
      }
    }
  }

  // The first n bytes, or all if there are fewer
  function Take(file: seq<byte>, n: nat): seq<byte> {
    if n <= |file| then file[..n] else file
  }

  // file cut or extended with zeros to a size
  function Resize(file: seq<byte>, size: nat): (r: seq<byte>)
    ensures |r| == size
  {
    if size <= |file| then file[..size] else file + seq(size - |file|, i => 0)
  }

  class Files {
    var log: seq<byte>
    var logSynced: nat
    var journal: seq<byte>
    var durable: seq<byte>
    var writeCount: nat
    var syncCount: nat
    const writes: nat -> WriteOutcome
    const syncs: nat -> bool
    ghost const lastInterrupt: nat

    ghost predicate Valid()
      reads this
    {
      && logSynced <= |log|
      && forall n :: n >= lastInterrupt ==> writes(n) != Interrupted
    }

    constructor (log: seq<byte>, journal: seq<byte>, writes: nat -> WriteOutcome, syncs: nat -> bool,
                 ghost lastInterrupt: nat)
      requires forall n :: n >= lastInterrupt ==> writes(n) != Interrupted
      ensures Valid()
      ensures this.log == log && logSynced == |log| && this.journal == journal && durable == journal
    {
      this.log, this.logSynced := log, |log|;
      this.journal, this.durable := journal, journal;
      this.writes, this.syncs, this.lastInterrupt := writes, syncs, lastInterrupt;
      writeCount, syncCount := 0, 0;
    }

    function Content(target: Target): seq<byte>
      reads this
    {
      match target
      case MainLog => log
      case Journal => journal
    }

    // The file that is not the target, with what is known to be on the disk
    function Rest(target: Target): (seq<byte>, nat)
      reads this
    {
      match target
      case MainLog => (journal, 0)
      case Journal => (log, logSynced)
    }

    // One system call; a negative result is an error, EINTR if interrupted.
    method Pwrite(target: Target, data: seq<byte>, offset: nat) returns (written: int, interrupted: bool)
      requires Valid() && offset <= |Content(target)|
      modifies this`log, this`logSynced, this`journal, this`writeCount
      ensures Valid() && writeCount == old(writeCount) + 1
      ensures interrupted ==> old(writeCount) < lastInterrupt
      ensures written <= |data| && (interrupted ==> written < 0)
      ensures written <= 0 ==> log == old(log) && journal == old(journal) && logSynced == old(logSynced)
      ensures written > 0 && target == MainLog ==>
        && log == Overlay(old(log), offset, data[..written]) && journal == old(journal)
        && logSynced == Min(old(logSynced), offset)
      ensures written > 0 && target == Journal ==>
        && journal == Overlay(old(journal), offset, data[..written])
        && log == old(log) && logSynced == old(logSynced)
    {
      var outcome := writes(writeCount);
      writeCount := writeCount + 1;
      interrupted := outcome == Interrupted;
      written := -1;
      match outcome
      case Interrupted =>
      case Refused =>
      case Wrote(n) =>
        written := if n < |data| then n else |data|;
        if written > 0 {
          match target
          case MainLog =>
            OverlayMeaning(log, offset, data[..written]);
            log := Overlay(log, offset, data[..written]);
            logSynced := Min(logSynced, offset);
          case Journal =>
            journal := Overlay(journal, offset, data[..written]);
        }
    }

    method SyncData(target: Target) returns (ok: bool)
      requires Valid()
      modifies this`logSynced, this`durable, this`syncCount
      ensures Valid()
      ensures logSynced == if ok && target == MainLog then |log| else old(logSynced)
      ensures durable == if ok && target == Journal then journal else old(durable)
    {
      ok := syncs(syncCount);
      syncCount := syncCount + 1;
      if ok {
        match target
        case MainLog => logSynced := |log|;
        case Journal => durable := journal;
      }
    }

    method ResizeJournal(size: nat) returns (ok: bool)
      modifies this`journal, this`syncCount
      ensures journal == if ok then Resize(old(journal), size) else old(journal)
    {
      ok := syncs(syncCount);
      syncCount := syncCount + 1;
      if ok {
        journal := Resize(journal, size);
      }
    }
  }
}
