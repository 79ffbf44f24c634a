/**
 The fault injector as the adversary of the scan: a byte flipped in a record or a
 cut tail is found at exactly that record.
 */
module FaultInjection {
  import opened Basics
  import opened Bytes
  import opened Crc32
  import opened LogFormat
  import opened LogScanner
  import opened Recovery
  import opened RecoveryManager

  function FlipByte(b: byte): byte {
    ((b as bv8) ^ 0x5A) as int
  }

  lemma FlipChanges(b: byte)
    ensures FlipByte(b) != b
  {
    FlippedBits(b as bv8);
  }

  lemma FlippedBits(x: bv8)
    ensures ((x ^ 0x5A) as int) as bv8 != x
  {
  }

  // Damage to one record

  // Two records that differ only within four consecutive covered bytes
  lemma CoveredChangeDetected(r: seq<byte>, r': seq<byte>, start: nat)
    requires |r| == |r'| == 84 && r != r' && start + 4 <= 80
    requires forall i :: 0 <= i < 84 && !(start <= i < start + 4) ==> r'[i] == r[i]
    requires RecordOk(r)
    ensures !RecordOk(r')
  {
    hide Crc, ComputeRecordCrc, DecodeRecordHeader, DecodePayload, RecordMetadataOk, FromLE;
    RecordCrcIsContiguous(r);
    RecordCrcIsContiguous(r');
    assert r'[80..] == r[80..];
    assert r == r[..80] + r[80..] && r' == r'[..80] + r'[80..];
    forall i | 0 <= i < 80 && !(start <= i < start + 4)
      ensures r[..80][i] == r'[..80][i]
    {
    }
    ByteBurstChangesCrc(r[..80], r'[..80], start);
  }

  // Two records that differ only in the stored checksum
  lemma StoredCrcChangeDetected(r: seq<byte>, r': seq<byte>)
    requires |r| == |r'| == 84 && r != r' && r'[..80] == r[..80]
    requires RecordOk(r)
    ensures !RecordOk(r')
  {
    hide Crc, ComputeRecordCrc, DecodeRecordHeader, DecodePayload, RecordMetadataOk, FromLE;
    RecordCrcIsContiguous(r);
    RecordCrcIsContiguous(r');
    assert r == r[..80] + r[80..] && r' == r'[..80] + r'[80..];
    ToFromLE(r[80..]);
    ToFromLE(r'[80..]);
  }

  lemma FlippedRecord(r: seq<byte>, offset: nat)
    requires |r| == 84 && offset < 84 && RecordOk(r)
    ensures !RecordOk(r[offset := FlipByte(r[offset])])
  {
    hide RecordOk, FlipByte;
    FlipChanges(r[offset]);
    var r' := r[offset := FlipByte(r[offset])];
    assert r'[offset] != r[offset];
    if offset < 80 {
      CoveredChangeDetected(r, r', if offset < 76 then offset else 76);
    } else {
      assert r'[..80] == r[..80];
      StoredCrcChangeDetected(r, r');
    }
  }

  // If only record i of the file changes and becomes invalid, the scan finds
  // exactly the records before it.
  lemma DamagedRecordStopsScan(file: seq<byte>, damaged: seq<byte>, i: nat)
    requires Boundary(i + 1) <= |damaged| && Boundary(i) <= |file|
    requires damaged[..Boundary(i)] == file[..Boundary(i)]
    requires !RecordOk(RecordAt(damaged, i))
    requires HeaderOk(file) && i < ValidCount(file)
    ensures HeaderOk(damaged) && ValidCount(damaged) == i
    ensures Entries(damaged, i) == Entries(file, i)
    ensures !ScanReport(damaged).healthy
  {
    hide FileHeaderOk, RecordOk, ScanReport, Follows;
    LongestPrefix(file, i);
    PrefixStable(file, damaged, i);
    LongestPrefix(damaged, i);
    ReportBasics(damaged);
    assert !RecordValid(damaged, i);
    LongestPrefix(damaged, i + 1);
    if Healthy(damaged, ScanReport(damaged).validRecords) {
      HealthyCount(damaged, ScanReport(damaged).validRecords);
    }
  }

  // A byte flipped at any offset of record i is found there.
  lemma FlipDetected(file: seq<byte>, i: nat, offset: nat)
    requires HeaderOk(file) && i < ValidCount(file) && offset < 84
    ensures Boundary(i + 1) <= |file|
    ensures
      var at := Boundary(i) + offset;
      var damaged := file[at := FlipByte(file[at])];
      && HeaderOk(damaged) && ValidCount(damaged) == i
      && Entries(damaged, i) == Entries(file, i)
      && !ScanReport(damaged).healthy
  {
    hide HeaderOk, RecordOk, FlipByte, ScanReport, Follows;
    LongestPrefix(file, i + 1);
    assert RecordValid(file, i);
    var at := Boundary(i) + offset;
    var damaged := file[at := FlipByte(file[at])];
    assert RecordAt(damaged, i) == RecordAt(file, i)[offset := FlipByte(RecordAt(file, i)[offset])];
    FlippedRecord(RecordAt(file, i), offset);
    DamagedRecordStopsScan(file, damaged, i);
  }

  // A valid prefix of a cut file is one of the whole file.
  lemma CutGainsNothing(file: seq<byte>, size: nat, k: nat)
    requires size <= |file|
    ensures ValidPrefix(file[..size], k) ==> ValidPrefix(file, k)
  {
    hide FileHeaderOk, RecordOk;
    var cut := file[..size];
    if ValidPrefix(cut, k) {
      LongestPrefix(cut, k);
      PrefixLength(cut, k);
      assert file[..Boundary(k)] == cut[..Boundary(k)];
      PrefixStable(cut, file, k);
    }
  }

  // Cutting the file keeps the records that are still complete.
  lemma CutDetected(file: seq<byte>, size: nat)
    requires HeaderOk(file) && 24 <= size <= |file|
    ensures
      var cut, complete := file[..size], (size - 24) / 84;
      && HeaderOk(cut)
      && ValidCount(cut) == (if complete < ValidCount(file) then complete else ValidCount(file))
      && (ScanReport(cut).healthy <==> complete <= ValidCount(file) && size == Boundary(complete))
  {
    hide FileHeaderOk, RecordOk, ScanReport;
    var cut, complete := file[..size], (size - 24) / 84;
    var n := if complete < ValidCount(file) then complete else ValidCount(file);
    LongestPrefix(file, n);
    LongestPrefix(file, ValidCount(file) + 1);
    assert cut[..Boundary(n)] == file[..Boundary(n)];
    PrefixStable(file, cut, n);
    LongestPrefix(cut, n);
    CutGainsNothing(file, size, n + 1);
    LongestPrefix(cut, n + 1);
    if n == complete {
      assert !RecordValid(cut, n);
    }
    ReportBasics(cut);
    if Healthy(cut, n) {
      HealthyCount(cut, ScanReport(cut).validRecords);
    }
  }

  // Removes bytes from the end, but never the whole file.
  method TruncateLogTail(fs: FileSystem, bytesToRemove: nat) returns (ok: bool)
    modifies fs`log
    ensures ok <==> old(fs.log).Some? && bytesToRemove < |old(fs.log).value|
    ensures ok ==> fs.log == Some(old(fs.log).value[..|old(fs.log).value| - bytesToRemove])
    ensures !ok ==> fs.log == old(fs.log)
  {
    if fs.log == None || bytesToRemove >= |fs.log.value| {
      return false;
    }
    fs.log := Some(fs.log.value[..|fs.log.value| - bytesToRemove]);
    ok := true;
  }

  ghost predicate Names(es: seq<Entry>, sequence: u64) {
    exists i :: 0 <= i < |es| && es[i].sequence == sequence
  }

  // Flips one byte of the record with the given sequence number.  A rescan then
  // finds exactly the records before it.
  method CorruptRecordByte(fs: FileSystem, sequence: u64, offset: nat) returns (ok: bool, ghost index: nat)
    modifies fs`log, fs`history
    ensures ok <==> offset < 84 && old(fs.log).Some? && Names(ScannedEntries(old(fs.log).value), sequence)
    ensures !ok ==> fs.log == old(fs.log)
    ensures ok ==>
      var file := old(fs.log).value;
      && index < |ScannedEntries(file)| && ScannedEntries(file)[index].sequence == sequence
      && (forall j :: 0 <= j < index ==> ScannedEntries(file)[j].sequence != sequence)
      && Boundary(index) + offset < |file|
      && fs.log == Some(file[Boundary(index) + offset := FlipByte(file[Boundary(index) + offset])])
      && HeaderOk(fs.log.value) && ValidCount(fs.log.value) == index
      && ScannedEntries(fs.log.value) == ScannedEntries(file)[..index]
      && !ScanReport(fs.log.value).healthy
  {
    hide HeaderOk, RecordValid, ScanReport, FlipByte, ScannedEntries, Entries, MustTrim, Scan;
    index := 0;
    if offset >= 84 {
      return false, 0;
    }
    var report, entries := fs.ScanFile(false);
    var found, i := false, 0;
    while i < |entries| && !found
      invariant i <= |entries|
      invariant found ==> i < |entries| && entries[i].sequence == sequence
      invariant forall j :: 0 <= j < i ==> entries[j].sequence != sequence
      decreases |entries| - i, !found
    {
      if entries[i].sequence == sequence {
        found := true;
      } else {
        i := i + 1;
      }
    }
    if !found {
      return false, 0;
    }
    var file := fs.log.value;
    FoundInFile(file, i);
    FlipDetected(file, i, offset);
    var at := Boundary(i) + offset;
    fs.log := Some(file[at := FlipByte(file[at])]);
    FlippedEntries(file, fs.log.value, i);
    ok, index := true, i;
  }

  lemma FoundInFile(file: seq<byte>, i: nat)
    requires i < |ScannedEntries(file)|
    ensures HeaderOk(file) && i < ValidCount(file)
  {
    hide FileHeaderOk, RecordValid, Entries;
  }

  lemma FlippedEntries(file: seq<byte>, damaged: seq<byte>, i: nat)
    requires HeaderOk(file) && i < ValidCount(file) && Boundary(i) <= |file|
    requires HeaderOk(damaged) && ValidCount(damaged) == i && Boundary(i) <= |damaged|
    requires Entries(damaged, i) == Entries(file, i)
    ensures i <= |ScannedEntries(file)| && ScannedEntries(damaged) == ScannedEntries(file)[..i]
  {
    hide HeaderOk, RecordValid, EntryOf, RecordAt;
  }
}
