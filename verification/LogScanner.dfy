/**
 The forward scan of the log: a 24-byte header followed by 84-byte records, of
 which the longest prefix of well-formed, checksummed and contiguous records is
 kept.
 */
module LogScanner {
  import Crc32
  import opened Basics
  import opened Bytes
  import opened LogFormat

  // What a file means, independently of any scan

  function Boundary(k: nat): nat {
    24 + 84 * k
  }

  function RecordAt(file: seq<byte>, i: nat): (r: seq<byte>)
    requires Boundary(i + 1) <= |file|
    ensures |r| == 84
  {
    file[Boundary(i)..Boundary(i + 1)]
  }

  predicate HeaderOk(file: seq<byte>) {
    |file| >= 24 && FileHeaderOk(DecodeFileHeader(file[..24]))
  }

  // Sequence numbers are contiguous without wrapping.
  predicate Follows(file: seq<byte>, k: nat)
    requires Boundary(k + 1) <= |file|
  {
    k > 0 ==> HeaderPart(RecordAt(file, k)).sequence == HeaderPart(RecordAt(file, k - 1)).sequence + 1
  }

  // Record k is complete, well formed, checksummed and follows record k - 1.
  predicate RecordValid(file: seq<byte>, k: nat) {
    && Boundary(k + 1) <= |file|
    && RecordOk(RecordAt(file, k))
    && Follows(file, k)
  }

  ghost predicate ValidPrefix(file: seq<byte>, k: nat) {
    && HeaderOk(file)
    && forall i :: 0 <= i < k ==> RecordValid(file, i)
  }

  function CountFrom(file: seq<byte>, k: nat): nat
    decreases |file| - 84 * k
  {
    if RecordValid(file, k) then CountFrom(file, k + 1) else k
  }

  lemma {:induction false} CountFromStops(file: seq<byte>, k: nat)
    ensures CountFrom(file, k) >= k
    ensures forall i :: k <= i < CountFrom(file, k) ==> RecordValid(file, i)
    ensures !RecordValid(file, CountFrom(file, k))
    decreases |file| - 84 * k
  {
    hide RecordOk, Follows;
    if RecordValid(file, k) {
      CountFromStops(file, k + 1);
    }
  }

  // The number of records of the longest valid prefix
  function ValidCount(file: seq<byte>): nat {
    if HeaderOk(file) then CountFrom(file, 0) else 0
  }

  function Entries(file: seq<byte>, k: nat): (es: seq<Entry>)
    requires Boundary(k) <= |file|
    ensures |es| == k
  {
    seq(k, i requires 0 <= i < k => EntryOf(RecordAt(file, i)))
  }

  function LastSequence(es: seq<Entry>): u64 {
    if |es| == 0 then 0 else es[|es| - 1].sequence
  }

  // ValidCount is the only k that is valid and cannot be extended.
  lemma LongestPrefix(file: seq<byte>, k: nat)
    requires HeaderOk(file)
    ensures ValidPrefix(file, k) <==> k <= ValidCount(file)
    ensures ValidPrefix(file, k) && !ValidPrefix(file, k + 1) <==> k == ValidCount(file)
  {
    hide RecordValid, HeaderOk;
    CountFromStops(file, 0);
    var n := CountFrom(file, 0);
    if n < k {
      assert !RecordValid(file, n);
    }
  }

  lemma PrefixLength(file: seq<byte>, k: nat)
    requires ValidPrefix(file, k)
    ensures Boundary(k) <= |file|
  {
    hide RecordOk, FileHeaderOk;
    if k > 0 {
      assert RecordValid(file, k - 1);
    }
  }

  // A prefix stays valid, with the same records, in any file that shares its
  // bytes.
  lemma PrefixStable(file: seq<byte>, other: seq<byte>, k: nat)
    requires ValidPrefix(file, k)
    requires Boundary(k) <= |file| && Boundary(k) <= |other|
    requires other[..Boundary(k)] == file[..Boundary(k)]
    ensures ValidPrefix(other, k)
    ensures Entries(other, k) == Entries(file, k)
  {
    hide RecordOk, FileHeaderOk, HeaderPart, EntryOf;
    assert other[..24] == other[..Boundary(k)][..24] == file[..24];
    forall i | 0 <= i < k
      ensures Boundary(i + 1) <= |other| && RecordAt(other, i) == RecordAt(file, i)
    {
      assert RecordAt(other, i) == other[..Boundary(k)][Boundary(i)..Boundary(i + 1)];
      assert RecordAt(file, i) == file[..Boundary(k)][Boundary(i)..Boundary(i + 1)];
    }
    forall i | 0 <= i < k
      ensures RecordValid(other, i)
    {
      assert RecordValid(file, i);
    }
  }

  // Appending never loses records.
  lemma AppendKeepsPrefix(file: seq<byte>, tail: seq<byte>)
    requires HeaderOk(file)
    ensures ValidCount(file + tail) >= ValidCount(file)
    ensures Boundary(ValidCount(file)) <= |file|
    ensures Entries(file + tail, ValidCount(file)) == Entries(file, ValidCount(file))
  {
    hide FileHeaderOk, RecordOk;
    var k := ValidCount(file);
    LongestPrefix(file, k);
    PrefixLength(file, k);
    assert (file + tail)[..Boundary(k)] == file[..Boundary(k)];
    PrefixStable(file, file + tail, k);
    LongestPrefix(file + tail, k);
  }

  // Cutting at a record boundary leaves exactly the records before it.
  lemma CutAtBoundary(file: seq<byte>, j: nat)
    requires ValidPrefix(file, j) && Boundary(j) <= |file|
    ensures var cut := file[..Boundary(j)];
      && HeaderOk(cut) && ValidCount(cut) == j && |cut| == Boundary(j)
      && Entries(cut, j) == Entries(file, j)
  {
    hide FileHeaderOk, RecordOk;
    var cut := file[..Boundary(j)];
    assert cut[..Boundary(j)] == file[..Boundary(j)];
    PrefixStable(file, cut, j);
    LongestPrefix(cut, j);
    assert !RecordValid(cut, j);
  }

  // Exactly k records and nothing after them
  ghost predicate Healthy(file: seq<byte>, k: nat) {
    ValidPrefix(file, k) && |file| == Boundary(k)
  }

  lemma HealthyCount(file: seq<byte>, k: nat)
    requires Healthy(file, k)
    ensures ValidCount(file) == k
  {
    hide FileHeaderOk, RecordOk;
    LongestPrefix(file, k);
    assert !RecordValid(file, k);
  }

  // The report of a scan

  datatype Finding =
    | NotPresent
    | PartialFileHeader
    | InvalidFileHeader
    | CorruptFileHeader
    | Validated
    | PartialRecordHeader
    | InvalidRecordMetadata
    | TruncatedPayload
    | TruncatedRecordCrc
    | CrcMismatch
    | NonContiguous

  datatype RecoveryReport = RecoveryReport(
    healthy: bool,
    truncated: bool,
    validRecords: nat,
    lastSequence: u64,
    validBytes: nat,
    bytesScanned: nat,
    checksumFailures: nat,
    corruptionDetected: bool,
    firstBadRecordIndex: nat,
    firstBadRecordSequence: u64,
    expectedSequence: u64,
    corruptionOffset: nat,
    finding: Finding)

  const EMPTY_REPORT: RecoveryReport :=
    RecoveryReport(false, false, 0, 0, 0, 0, 0, false, 0, 0, 0, 0, NotPresent)

  // Why the scan stops after k records
  function StopFinding(file: seq<byte>, k: nat): Finding
    requires Boundary(k) <= |file|
  {
    var rest := |file| - Boundary(k);
    if rest == 0 then Validated
    else if rest < 28 then PartialRecordHeader
    else if !RecordMetadataOk(DecodeRecordHeader(file[Boundary(k)..Boundary(k) + 28])) then InvalidRecordMetadata
    else if rest < 80 then TruncatedPayload
    else if rest < 84 then TruncatedRecordCrc
    else if !RecordOk(RecordAt(file, k)) then CrcMismatch
    else NonContiguous
  }

  function BytesScanned(file: seq<byte>, k: nat): nat
    requires Boundary(k) <= |file|
  {
    match StopFinding(file, k)
    case InvalidRecordMetadata => Boundary(k) + 28
    case CrcMismatch => Boundary(k + 1)
    case NonContiguous => Boundary(k + 1)
    case _ => |file|
  }

  // The sequence number of the last record header that was read, if any
  function LastHeaderSequence(file: seq<byte>, k: nat, es: seq<Entry>): u64
    requires Boundary(k) <= |file|
  {
    if |file| - Boundary(k) < 28 then LastSequence(es)
    else DecodeRecordHeader(file[Boundary(k)..Boundary(k) + 28]).sequence
  }

  function HeaderReport(file: seq<byte>): RecoveryReport {
    EMPTY_REPORT.(
      corruptionDetected := true,
      bytesScanned := if |file| < 24 then |file| else 24,
      finding := if |file| < 24 then PartialFileHeader
                 else if !FileHeaderMetadataOk(DecodeFileHeader(file[..24])) then InvalidFileHeader
                 else CorruptFileHeader)
  }

  function RecordsReport(file: seq<byte>, k: nat): RecoveryReport
    requires Boundary(k) <= |file|
  {
    var es := Entries(file, k);
    var finding := StopFinding(file, k);
    RecoveryReport(
      finding == Validated,
      false,
      k,
      LastSequence(es),
      Boundary(k),
      BytesScanned(file, k),
      if finding == CrcMismatch then 1 else 0,
      finding != Validated,
      k + 1,
      LastHeaderSequence(file, k, es),
      if finding == NonContiguous then (LastSequence(es) + 1) % 0x1_0000_0000_0000_0000 else 0,
      Boundary(k),
      finding)
  }

  function ScanReport(file: seq<byte>): RecoveryReport {
    if HeaderOk(file) then
      ValidCountFits(file);
      RecordsReport(file, ValidCount(file))
    else HeaderReport(file)
  }

  lemma ValidCountFits(file: seq<byte>)
    requires HeaderOk(file)
    ensures Boundary(ValidCount(file)) <= |file|
  {
    hide HeaderOk, RecordValid;
    LongestPrefix(file, ValidCount(file));
    PrefixLength(file, ValidCount(file));
  }

  // The entries of the longest valid prefix
  function ScannedEntries(file: seq<byte>): seq<Entry> {
    if HeaderOk(file) then
      ValidCountFits(file);
      Entries(file, ValidCount(file))
    else []
  }

  // The bytes that follow the first k records
  function Rest(file: seq<byte>, k: nat): seq<byte>
    requires Boundary(k) <= |file|
  {
    file[Boundary(k)..]
  }

  // A whole record with good metadata follows, and its stored checksum is wrong.
  ghost predicate ChecksumFails(rest: seq<byte>) {
    && |rest| >= 84
    && RecordMetadataOk(DecodeRecordHeader(rest[..28]))
    && FromLE(rest[80..84]) != Crc32.Crc(rest[..80])
  }

  // What is wrong with the bytes after the last valid record, the sequence number of
  // which is last if there is one
  ghost predicate Explains(finding: Finding, rest: seq<byte>, last: Option<u64>) {
    match finding
    case Validated => rest == []
    case PartialRecordHeader => 0 < |rest| < 28
    case InvalidRecordMetadata => |rest| >= 28 && !RecordMetadataOk(DecodeRecordHeader(rest[..28]))
    case TruncatedPayload => 28 <= |rest| < 80 && RecordMetadataOk(DecodeRecordHeader(rest[..28]))
    case TruncatedRecordCrc => 80 <= |rest| < 84 && RecordMetadataOk(DecodeRecordHeader(rest[..28]))
    case CrcMismatch => ChecksumFails(rest)
    case NonContiguous =>
      && |rest| >= 84
      && RecordMetadataOk(DecodeRecordHeader(rest[..28]))
      && FromLE(rest[80..84]) == Crc32.Crc(rest[..80])
      && last.Some? && DecodeRecordHeader(rest[..28]).sequence != last.value + 1
    case _ => false
  }

  // The report of a file with a good header, field by field
  ghost predicate ReportsRecords(r: RecoveryReport, file: seq<byte>) {
    var k := r.validRecords;
    && ValidPrefix(file, k) && !ValidPrefix(file, k + 1)
    && 24 + 84 * k <= |file|
    && (r.healthy <==> |file| == 24 + 84 * k)
    && (r.corruptionDetected <==> |file| > 24 + 84 * k)
    && !r.truncated
    && r.validBytes == r.corruptionOffset == 24 + 84 * k
    && r.firstBadRecordIndex == k + 1
    && (k == 0 ==> r.lastSequence == 0)
    && (k > 0 ==> r.lastSequence == HeaderPart(RecordAt(file, k - 1)).sequence)
    && var rest := Rest(file, k);
    && Explains(r.finding, rest, if k == 0 then None else Some(r.lastSequence))
    && r.checksumFailures == (if ChecksumFails(rest) then 1 else 0)
    // The bad record names itself as soon as its header is there.
    && r.firstBadRecordSequence == (if |rest| < 28 then r.lastSequence else DecodeRecordHeader(rest[..28]).sequence)
    && r.expectedSequence == (if r.finding.NonContiguous? then (r.lastSequence + 1) % 0x1_0000_0000_0000_0000 else 0)
    // The scan reads no further than the record that it refuses.
    && r.bytesScanned == 24 + 84 * k +
         (if r.finding.InvalidRecordMetadata? then 28 else if |rest| < 84 then |rest| else 84)
  }

  // The report of a file without one
  ghost predicate ReportsHeader(r: RecoveryReport, file: seq<byte>) {
    && !r.healthy && r.corruptionDetected && !r.truncated
    && r.validBytes == r.validRecords == r.lastSequence == r.checksumFailures == r.corruptionOffset == 0
    && r.firstBadRecordIndex == r.firstBadRecordSequence == r.expectedSequence == 0
    && r.bytesScanned == (if |file| < 24 then |file| else 24)
    && match r.finding
       case PartialFileHeader => |file| < 24
       case InvalidFileHeader => |file| >= 24 && !FileHeaderMetadataOk(DecodeFileHeader(file[..24]))
       case CorruptFileHeader =>
         && |file| >= 24
         && FileHeaderMetadataOk(DecodeFileHeader(file[..24]))
         && DecodeFileHeader(file[..24]).crc != ComputeFileHeaderCrc(DecodeFileHeader(file[..24]))
       case _ => false
  }

  lemma ReportBasics(file: seq<byte>)
    ensures var r := ScanReport(file);
      && (r.healthy <==> Healthy(file, r.validRecords))
      && (r.corruptionDetected <==> !r.healthy)
      && (HeaderOk(file) ==> r.validBytes == Boundary(r.validRecords) <= |file|)
      && (HeaderOk(file) ==> ValidPrefix(file, r.validRecords) && !ValidPrefix(file, r.validRecords + 1))
      && (!HeaderOk(file) ==> !r.healthy && r.validBytes == r.validRecords == 0)
      && r.checksumFailures <= 1
  {
    hide HeaderOk, RecordValid;
    if HeaderOk(file) {
      ValidCountFits(file);
      LongestPrefix(file, ValidCount(file));
    }
  }

  lemma RestSlices(file: seq<byte>, k: nat)
    requires Boundary(k) <= |file|
    ensures Boundary(k) + 28 <= |file| ==> Rest(file, k)[..28] == file[Boundary(k)..Boundary(k) + 28]
    ensures Boundary(k + 1) <= |file| ==>
      Rest(file, k)[..84] == RecordAt(file, k) && Rest(file, k)[..28] == RecordAt(file, k)[..28]
  {
  }

  // A whole record is valid by itself exactly if its metadata are good and the
  // checksum of its first 80 bytes is the one that is stored behind them.
  lemma RecordOkByBytes(rest: seq<byte>)
    requires |rest| >= 84
    ensures RecordOk(rest[..84]) <==>
      RecordMetadataOk(DecodeRecordHeader(rest[..28])) && FromLE(rest[80..84]) == Crc32.Crc(rest[..80])
  {
    hide RecordMetadataOk, FromLE, DecodeRecordHeader, DecodePayload, ComputeRecordCrc;
    var record := rest[..84];
    assert record[..28] == rest[..28] && record[..80] == rest[..80] && record[80..] == rest[80..84];
    RecordCrcIsContiguous(record);
  }

  lemma StopExplained(file: seq<byte>, k: nat)
    requires Boundary(k) <= |file| && !RecordValid(file, k)
    ensures var last := LastSequence(Entries(file, k));
      Explains(StopFinding(file, k), Rest(file, k), if k == 0 then None else Some(last))
    ensures StopFinding(file, k).CrcMismatch? <==> ChecksumFails(Rest(file, k))
  {
    hide RecordMetadataOk, FromLE, DecodeRecordHeader, RecordOk, EntryOf;
    RestSlices(file, k);
    if |Rest(file, k)| >= 84 {
      RecordOkByBytes(Rest(file, k));
      LastHeader(file, k);
    }
  }

  lemma LastHeader(file: seq<byte>, k: nat)
    requires Boundary(k) <= |file|
    ensures k > 0 ==> LastSequence(Entries(file, k)) == HeaderPart(RecordAt(file, k - 1)).sequence
  {
  }

  // What the report says about the file.  With a good header: the longest valid
  // prefix, the last sequence number in it, and what is wrong with the bytes that
  // follow.
  lemma ReportMeaning(file: seq<byte>)
    ensures HeaderOk(file) ==> ReportsRecords(ScanReport(file), file)
    ensures !HeaderOk(file) ==> ReportsHeader(ScanReport(file), file)
  {
    hide RecordValid, RecordMetadataOk, FileHeaderMetadataOk, FromLE, DecodeRecordHeader, DecodeFileHeader;
    hide ComputeFileHeaderCrc, EntryOf, ChecksumFails, RecordAt;
    if HeaderOk(file) {
      var k := ValidCount(file);
      ReportBasics(file);
      LongestPrefix(file, k);
      CountFromStops(file, 0);
      StopExplained(file, k);
      RestSlices(file, k);
      LastHeader(file, k);
    }
  }
}
