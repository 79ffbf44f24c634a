/**
 The files byte by byte: at which offset each field of the packed structs lies, and
 what makes a header, a record, a checkpoint slot and a legacy entry acceptable,
 stated on the bytes alone.
 */
module DiskLayout {
  import opened Bytes
  import opened Crc32
  import opened LogFormat
  import opened LogScanner
  import opened Recovery
  import opened CrashProtocol

  // ---------- Fields ----------

  // Integers are little-endian.
  lemma LittleEndian(bs: seq<byte>)
    ensures |bs| == 2 ==> FromLE(bs) == (bs[0] as nat) + 0x100 * (bs[1] as nat)
    ensures |bs| == 4 ==>
      FromLE(bs)
        == (bs[0] as nat) + 0x100 * (bs[1] as nat) + 0x1_0000 * (bs[2] as nat) + 0x100_0000 * (bs[3] as nat)
    ensures |bs| == 8 ==>
      FromLE(bs) == FromLE(bs[..4]) + 0x1_0000_0000 * FromLE(bs[4..])
  {
    if |bs| == 2 {
      FromLETwo(bs);
    } else if |bs| == 4 {
      FromLEFour(bs);
    } else if |bs| == 8 {
      FromLEFour(bs[..4]);
      FromLETwo(bs);
      FromLETwo(bs[2..]);
      assert bs[2..][2..] == bs[4..];
    }
  }

  lemma FromLETwo(bs: seq<byte>)
    requires |bs| >= 2
    ensures FromLE(bs) == (bs[0] as nat) + 0x100 * (bs[1] as nat) + 0x1_0000 * FromLE(bs[2..])
  {
    assert bs[1..][1..] == bs[2..];
  }

  lemma FromLEFour(bs: seq<byte>)
    requires |bs| == 4
    ensures FromLE(bs)
      == (bs[0] as nat) + 0x100 * (bs[1] as nat) + 0x1_0000 * (bs[2] as nat) + 0x100_0000 * (bs[3] as nat)
  {
    hide FromLE;
    FromLETwo(bs);
    FromLETwo(bs[2..]);
    NoBytes();
    assert bs[2..][2..] == [];
  }

  lemma NoBytes()
    ensures FromLE([]) == 0
  {}

  // Where field i of a layout begins
  function Offset(widths: seq<nat>, i: nat): (at: nat)
    requires i <= |widths|
    ensures at <= Total(widths)
  {
    if i == 0 then 0 else widths[0] + Offset(widths[1..], i - 1)
  }

  lemma {:induction false} OffsetStep(widths: seq<nat>, i: nat)
    requires i < |widths|
    ensures Offset(widths, i + 1) == Offset(widths, i) + widths[i] <= Total(widths)
  {
    if i > 0 {
      OffsetStep(widths[1..], i - 1);
    }
  }

  lemma {:induction false} FieldAt(widths: seq<nat>, bs: seq<byte>, i: nat)
    requires |bs| == Total(widths) && i < |widths|
    ensures Offset(widths, i) + widths[i] <= |bs|
    ensures Unpack(widths, bs)[i] == FromLE(bs[Offset(widths, i)..Offset(widths, i) + widths[i]])
  {
    hide FromLE;
    OffsetStep(widths, i);
    if i > 0 {
      var w, tail := widths[0], bs[widths[0]..];
      FieldAt(widths[1..], tail, i - 1);
      var at := Offset(widths[1..], i - 1);
      assert tail[at..at + widths[i]] == bs[w + at..w + at + widths[i]];
    }
  }

  lemma OffsetZero(widths: seq<nat>)
    ensures Offset(widths, 0) == 0
  {}

  lemma FirstOffsets(w: seq<nat>)
    requires |w| >= 6
    ensures Offset(w, 0) == 0 && Offset(w, 1) == w[0] && Offset(w, 2) == w[0] + w[1]
    ensures Offset(w, 3) == w[0] + w[1] + w[2] && Offset(w, 4) == w[0] + w[1] + w[2] + w[3]
    ensures Offset(w, 5) == w[0] + w[1] + w[2] + w[3] + w[4]
    ensures Offset(w, 6) == w[0] + w[1] + w[2] + w[3] + w[4] + w[5]
  {
    hide Offset;
    OffsetZero(w);
    OffsetStep(w, 0);
    OffsetStep(w, 1);
    OffsetStep(w, 2);
    OffsetStep(w, 3);
    OffsetStep(w, 4);
    OffsetStep(w, 5);
  }

  lemma AllFields(widths: seq<nat>, bs: seq<byte>)
    requires |bs| == Total(widths)
    ensures forall i :: 0 <= i < |widths| ==>
      && Offset(widths, i) + widths[i] <= |bs|
      && Unpack(widths, bs)[i] == FromLE(bs[Offset(widths, i)..Offset(widths, i) + widths[i]])
  {
    hide FromLE, Offset, Unpack, Total;
    forall i | 0 <= i < |widths|
      ensures Offset(widths, i) + widths[i] <= |bs|
      ensures Unpack(widths, bs)[i] == FromLE(bs[Offset(widths, i)..Offset(widths, i) + widths[i]])
    {
      FieldAt(widths, bs, i);
    }
  }

  lemma FileHeaderLayout(bs: seq<byte>)
    requires |bs| == 24
    ensures var h := DecodeFileHeader(bs);
      && h.magic == FromLE(bs[0..4]) && h.version == FromLE(bs[4..6]) && h.headerSize == FromLE(bs[6..8])
      && h.startTime == FromLE(bs[8..16]) && h.recordSize == FromLE(bs[16..20]) && h.crc == FromLE(bs[20..24])
  {
    hide FromLE, Unpack, Total, Offset;
    Sizes();
    var w := FILE_HEADER;
    FirstOffsets(w);
    AllFields(w, bs);
  }

  lemma RecordHeaderLayout(bs: seq<byte>)
    requires |bs| == 28
    ensures var h := DecodeRecordHeader(bs);
      && h.magic == FromLE(bs[0..4]) && h.version == FromLE(bs[4..6]) && h.headerSize == FromLE(bs[6..8])
      && h.payloadSize == FromLE(bs[8..12]) && h.sequence == FromLE(bs[12..20]) && h.timestamp == FromLE(bs[20..28])
  {
    hide FromLE, Unpack, Total, Offset;
    Sizes();
    var w := RECORD_HEADER;
    FirstOffsets(w);
    AllFields(w, bs);
  }

  lemma PayloadLayout(bs: seq<byte>)
    requires |bs| == 52
    ensures var p := DecodePayload(bs);
      && p.altitude == FromLE(bs[0..8]) && p.airspeed == FromLE(bs[8..16]) && p.heading == FromLE(bs[16..24])
      && p.verticalSpeed == FromLE(bs[24..32]) && p.engineTemperature == FromLE(bs[32..40])
      && p.engineRpm == FromLE(bs[40..48]) && p.systemStatus == FromLE(bs[48..52])
  {
    hide FromLE, Unpack, Total, Offset;
    Sizes();
    var w := PAYLOAD;
    FirstOffsets(w);
    AllFields(w, bs);
  }

  lemma SlotLayout(bs: seq<byte>)
    requires |bs| == 52
    ensures var s := DecodeCheckpointSlot(bs);
      && s.magic == FromLE(bs[0..4]) && s.version == FromLE(bs[4..6]) && s.slotSize == FromLE(bs[6..8])
      && s.generation == FromLE(bs[8..16]) && s.startTime == FromLE(bs[16..24])
      && s.committedLength == FromLE(bs[24..32]) && s.recordCount == FromLE(bs[32..40])
      && s.lastSequence == FromLE(bs[40..48]) && s.crc == FromLE(bs[48..52])
  {
    hide FromLE, Unpack, Total, Offset;
    Sizes();
    var w := SLOT;
    FirstOffsets(w);
    OffsetStep(w, 6);
    OffsetStep(w, 7);
    AllFields(w, bs);
  }

  lemma JournalEntryHeaderLayout(bs: seq<byte>)
    requires |bs| == 24
    ensures var h := DecodeJournalEntryHeader(bs);
      && h.magic == FromLE(bs[0..4]) && h.version == FromLE(bs[4..6]) && h.headerSize == FromLE(bs[6..8])
      && h.state == FromLE(bs[8..12]) && h.entrySize == FromLE(bs[12..16]) && h.sequence == FromLE(bs[16..24])
  {
    hide FromLE, Unpack, Total, Offset;
    Sizes();
    var w := JOURNAL_HEADER;
    FirstOffsets(w);
    AllFields(w, bs);
  }

  // ---------- Checksums over a zeroed field ----------

  const NO_CRC: seq<byte> := [0, 0, 0, 0]

  lemma ZeroField()
    ensures FromLE(NO_CRC) == 0
  {
    LittleEndian(NO_CRC);
  }

  // The checksum of a file header is that of its bytes with its own field zeroed.
  lemma FileHeaderCrcBytes(bs: seq<byte>)
    requires |bs| == 24
    ensures ComputeFileHeaderCrc(DecodeFileHeader(bs)) == Crc(bs[..20] + NO_CRC)
  {
    hide Crc, EncodeFileHeader, DecodeFileHeader, FromLE;
    var zeroed := bs[..20] + NO_CRC;
    FileHeaderLayout(bs);
    FileHeaderLayout(zeroed);
    ZeroField();
    assert zeroed[0..4] == bs[0..4] && zeroed[4..6] == bs[4..6] && zeroed[6..8] == bs[6..8];
    assert zeroed[8..16] == bs[8..16] && zeroed[16..20] == bs[16..20] && zeroed[20..24] == NO_CRC;
    FileHeaderBytes(zeroed);
  }

  lemma SlotCrcBytes(bs: seq<byte>)
    requires |bs| == 52
    ensures ComputeCheckpointCrc(DecodeCheckpointSlot(bs)) == Crc(bs[..48] + NO_CRC)
  {
    hide Crc, EncodeCheckpointSlot, DecodeCheckpointSlot, FromLE;
    var zeroed := bs[..48] + NO_CRC;
    SlotLayout(bs);
    SlotLayout(zeroed);
    ZeroField();
    assert zeroed[0..4] == bs[0..4] && zeroed[4..6] == bs[4..6] && zeroed[6..8] == bs[6..8];
    assert zeroed[8..16] == bs[8..16] && zeroed[16..24] == bs[16..24] && zeroed[24..32] == bs[24..32];
    assert zeroed[32..40] == bs[32..40] && zeroed[40..48] == bs[40..48] && zeroed[48..52] == NO_CRC;
    CheckpointSlotBytes(zeroed);
  }

  lemma LegacyEntryCrcBytes(bs: seq<byte>)
    requires |bs| == 112
    ensures ComputeJournalCrc(DecodeJournalEntry(bs)) == Crc(bs[..108] + NO_CRC)
  {
    hide Crc, EncodeJournalEntry, DecodeJournalEntryHeader, DecodeRecordHeader, DecodePayload, FromLE;
    var zeroed := bs[..108] + NO_CRC;
    ZeroField();
    assert zeroed[..24] == bs[..24] && zeroed[24..52] == bs[24..52] && zeroed[52..104] == bs[52..104];
    assert zeroed[104..108] == bs[104..108] && zeroed[108..] == NO_CRC;
    JournalEntryBytes(zeroed);
  }

  // ---------- What is acceptable ----------

  // A log header: magic, version, both sizes and the checksum
  lemma HeaderOkExactly(file: seq<byte>)
    ensures HeaderOk(file) <==>
      && |file| >= 24
      && FromLE(file[0..4]) == 0x464C4F47 && FromLE(file[4..6]) == 1 && FromLE(file[6..8]) == 24
      && FromLE(file[16..20]) == 84
      && FromLE(file[20..24]) == Crc(file[..20] + NO_CRC)
  {
    hide Crc, DecodeFileHeader, ComputeFileHeaderCrc, FromLE;
    if |file| >= 24 {
      var bs := file[..24];
      FileHeaderLayout(bs);
      FileHeaderCrcBytes(bs);
      assert bs[0..4] == file[0..4] && bs[4..6] == file[4..6] && bs[6..8] == file[6..8];
      assert bs[16..20] == file[16..20] && bs[20..24] == file[20..24] && bs[..20] == file[..20];
    }
  }

  // open() checks less of it: neither of the sizes, but that whole records follow.
  lemma OpenHeaderOkExactly(log: seq<byte>)
    ensures OpenHeaderOk(log) <==>
      && |log| >= 24 && (|log| - 24) % 84 == 0
      && FromLE(log[0..4]) == 0x464C4F47 && FromLE(log[4..6]) == 1
      && FromLE(log[20..24]) == Crc(log[..20] + NO_CRC)
  {
    hide Crc, DecodeFileHeader, ComputeFileHeaderCrc, FromLE;
    if |log| >= 24 {
      var bs := log[..24];
      FileHeaderLayout(bs);
      FileHeaderCrcBytes(bs);
      assert bs[0..4] == log[0..4] && bs[4..6] == log[4..6];
      assert bs[20..24] == log[20..24] && bs[..20] == log[..20];
    }
  }

  lemma RecordOkExactly(r: seq<byte>)
    requires |r| == 84
    ensures RecordOk(r) <==>
      && FromLE(r[0..4]) == 0x46524344 && FromLE(r[4..6]) == 1 && FromLE(r[6..8]) == 28
      && FromLE(r[8..12]) == 52
      && FromLE(r[80..84]) == Crc(r[..80])
  {
    hide Crc, DecodeRecordHeader, ComputeRecordCrc, FromLE;
    var bs := r[..28];
    RecordHeaderLayout(bs);
    RecordCrcIsContiguous(r);
    assert bs[0..4] == r[0..4] && bs[4..6] == r[4..6] && bs[6..8] == r[6..8] && bs[8..12] == r[8..12];
    assert r[80..] == r[80..84];
  }

  // What a record on disk says
  lemma EntryLayout(r: seq<byte>)
    requires |r| == 84
    ensures var e := EntryOf(r);
      && e.sequence == FromLE(r[12..20]) && e.record.timestamp == FromLE(r[20..28])
      && e.record.altitude == FromLE(r[28..36]) && e.record.airspeed == FromLE(r[36..44])
      && e.record.heading == FromLE(r[44..52]) && e.record.verticalSpeed == FromLE(r[52..60])
      && e.record.engineTemperature == FromLE(r[60..68]) && e.record.engineRpm == FromLE(r[68..76])
      && e.record.systemStatus == FromLE(r[76..80])
  {
    hide DecodeRecordHeader, DecodePayload, FromLE;
    var h, p := r[..28], r[28..80];
    RecordHeaderLayout(h);
    PayloadLayout(p);
    assert h[12..20] == r[12..20] && h[20..28] == r[20..28];
    SliceOfSlice(r, 28, 52, 0, 8);
    SliceOfSlice(r, 28, 52, 8, 16);
    SliceOfSlice(r, 28, 52, 16, 24);
    SliceOfSlice(r, 28, 52, 24, 32);
    SliceOfSlice(r, 28, 52, 32, 40);
    SliceOfSlice(r, 28, 52, 40, 48);
    SliceOfSlice(r, 28, 52, 48, 52);
  }

  // A record as it is written
  lemma RecordOnDisk(e: Entry)
    ensures var r := EncodeRecord(e);
      && FromLE(r[0..4]) == 0x46524344 && FromLE(r[4..6]) == 1 && FromLE(r[6..8]) == 28 && FromLE(r[8..12]) == 52
      && FromLE(r[12..20]) == e.sequence && FromLE(r[20..28]) == e.record.timestamp
      && FromLE(r[28..36]) == e.record.altitude && FromLE(r[36..44]) == e.record.airspeed
      && FromLE(r[44..52]) == e.record.heading && FromLE(r[52..60]) == e.record.verticalSpeed
      && FromLE(r[60..68]) == e.record.engineTemperature && FromLE(r[68..76]) == e.record.engineRpm
      && FromLE(r[76..80]) == e.record.systemStatus
      && FromLE(r[80..84]) == Crc(r[..80])
  {
    hide Crc, EncodeRecord, RecordOk, EntryOf, FromLE;
    RecordRoundTrip(e);
    RecordOkExactly(EncodeRecord(e));
    EntryLayout(EncodeRecord(e));
  }

  lemma SlotValidExactly(bs: seq<byte>)
    requires |bs| == 52
    ensures CheckpointMetadataValid(DecodeCheckpointSlot(bs)) <==>
      && FromLE(bs[0..4]) == 0x464A4E4C && FromLE(bs[4..6]) == 2 && FromLE(bs[6..8]) == 52
      && FromLE(bs[8..16]) != 0
      && FromLE(bs[48..52]) == Crc(bs[..48] + NO_CRC)
  {
    hide Crc, DecodeCheckpointSlot, ComputeCheckpointCrc, FromLE;
    SlotLayout(bs);
    SlotCrcBytes(bs);
  }

  // A checkpoint as the writer and a migration write it
  lemma CheckpointOnDisk(generation: u64, startTime: u64, length: u64, count: u64, last: u64)
    ensures var bs := EncodeCheckpointSlot(NewCheckpoint(generation, startTime, length, count, last));
      && FromLE(bs[0..4]) == 0x464A4E4C && FromLE(bs[4..6]) == 2 && FromLE(bs[6..8]) == 52
      && FromLE(bs[8..16]) == generation && FromLE(bs[16..24]) == startTime
      && FromLE(bs[24..32]) == length && FromLE(bs[32..40]) == count && FromLE(bs[40..48]) == last
      && FromLE(bs[48..52]) == Crc(bs[..48] + NO_CRC)
  {
    hide Crc, EncodeCheckpointSlot, DecodeCheckpointSlot, ComputeCheckpointCrc, FromLE;
    var slot := NewCheckpoint(generation, startTime, length, count, last);
    var bs := EncodeCheckpointSlot(slot);
    CheckpointSlotRoundTrip(slot);
    SlotLayout(bs);
    SlotCrcBytes(bs);
    ChecksumIgnoresField(slot);
  }

  lemma ChecksumIgnoresField(slot: CheckpointSlot)
    ensures forall crc: u32 :: ComputeCheckpointCrc(slot.(crc := crc)) == ComputeCheckpointCrc(slot)
  {
    hide Crc, EncodeCheckpointSlot;
  }

  // A new log header as it is written
  lemma FileHeaderOnDisk(startTime: u64)
    ensures var bs := EncodeFileHeader(NewFileHeader(startTime));
      && FromLE(bs[0..4]) == 0x464C4F47 && FromLE(bs[4..6]) == 1 && FromLE(bs[6..8]) == 24
      && FromLE(bs[8..16]) == startTime && FromLE(bs[16..20]) == 84
      && FromLE(bs[20..24]) == Crc(bs[..20] + NO_CRC)
  {
    hide Crc, EncodeFileHeader, DecodeFileHeader, FromLE;
    var h := NewFileHeader(startTime);
    var bs := EncodeFileHeader(h);
    FileHeaderRoundTrip(h);
    FileHeaderLayout(bs);
    FileHeaderCrcBytes(bs);
  }

  // A legacy entry: its own header and checksum, and the record inside it at byte 24
  lemma LegacyEntryExactly(bs: seq<byte>)
    requires |bs| == 112
    ensures JournalEntryValid(DecodeJournalEntry(bs)) <==>
      && FromLE(bs[0..4]) == 0x464A4E4C && FromLE(bs[4..6]) == 1 && FromLE(bs[6..8]) == 112
      && FromLE(bs[8..12]) == 1 && FromLE(bs[12..16]) == 112
      && FromLE(bs[108..112]) == Crc(bs[..108] + NO_CRC)
      && RecordOk(bs[24..108])
      && FromLE(bs[36..44]) == FromLE(bs[16..24])
    ensures JournaledRecord(DecodeJournalEntry(bs)) == bs[24..108]
  {
    hide Crc, DecodeJournalEntryHeader, DecodeRecordHeader, DecodePayload, EncodeRecordHeader, EncodePayload;
    hide ComputeJournalCrc, ComputeRecordCrc, FromLE, ToLE;
    var h, r := bs[..24], bs[24..108];
    JournalEntryHeaderLayout(h);
    LegacyEntryCrcBytes(bs);
    assert h[0..4] == bs[0..4] && h[4..6] == bs[4..6] && h[6..8] == bs[6..8] && h[8..12] == bs[8..12];
    assert h[12..16] == bs[12..16] && h[16..24] == bs[16..24];
    SliceOfSlice(bs, 24, 84, 0, 28);
    SliceOfSlice(bs, 24, 84, 28, 80);
    SliceOfSlice(bs, 24, 84, 80, 84);
    assert bs[108..] == bs[108..112];
    RecordHeaderLayout(bs[24..52]);
    SliceOfSlice(bs, 24, 28, 12, 20);
    RecordHeaderBytes(bs[24..52]);
    PayloadBytes(bs[52..104]);
    ToFromLE(bs[104..108]);
    assert r == r[..28] + r[28..80] + r[80..];
  }

  // ---------- What open() loads ----------

  // A slot of 52 bytes that open() accepts for this log: valid, of the log's start
  // time, ending where the log ends, and counting its records
  ghost predicate SlotFits(bs: seq<byte>, log: seq<byte>)
    requires |bs| == 52 && |log| >= 24
  {
    && CheckpointMetadataValid(DecodeCheckpointSlot(bs))
    && FromLE(bs[16..24]) == FromLE(log[8..16])
    && FromLE(bs[24..32]) == |log|
    && FromLE(bs[32..40]) == (|log| - 24) / 84
  }

  lemma DescribesByBytes(bs: seq<byte>, log: seq<byte>)
    requires |bs| == 52 && |log| >= 24
    ensures Describes(DecodeCheckpointSlot(bs), DecodeFileHeader(log[..24]).startTime, |log|) <==> SlotFits(bs, log)
  {
    hide Crc, DecodeCheckpointSlot, ComputeCheckpointCrc, FromLE, DecodeFileHeader, CheckpointMetadataValid;
    SlotLayout(bs);
    FileHeaderLayout(log[..24]);
    assert log[..24][8..16] == log[8..16];
  }

  // open() loads an existing log exactly if its header is acceptable and one of the
  // two slots fits it: then the one of larger generation, the first on a tie.
  lemma OpenLoadsExactly(log: seq<byte>, journal: seq<byte>)
    requires |log| >= 24 && |journal| == 104
    ensures LoadCheckpoint(log, journal).Some? <==>
      OpenHeaderOk(log) && (SlotFits(journal[..52], log) || SlotFits(journal[52..], log))
    ensures LoadCheckpoint(log, journal).Some? ==>
      var c := LoadCheckpoint(log, journal).value;
      var first, second := SlotFits(journal[..52], log), SlotFits(journal[52..], log);
      var newer := FromLE(journal[60..68]) > FromLE(journal[8..16]);
      && c.active == (if second && (!first || newer) then 1 else 0)
      && var bs := if c.active == 1 then journal[52..] else journal[..52];
      && c.generation == FromLE(bs[8..16]) && c.last == FromLE(bs[40..48])
      && c.length == |log| && c.count == c.committed == (|log| - 24) / 84
      && c.phase == Idle && !c.failed
  {
    hide Crc, DecodeCheckpointSlot, FromLE, DecodeFileHeader, OpenHeaderOk, Describes, SlotFits;
    var a, b := journal[..52], journal[52..];
    assert SlotBytes(journal, 0) == a && SlotBytes(journal, 1) == b;
    DescribesByBytes(a, log);
    DescribesByBytes(b, log);
    SlotLayout(a);
    SlotLayout(b);
    assert a[8..16] == journal[8..16] && b[8..16] == journal[60..68];
    FitsMeansCount(a, log);
    FitsMeansCount(b, log);
  }

  lemma FitsMeansCount(bs: seq<byte>, log: seq<byte>)
    requires |bs| == 52 && |log| >= 24
    ensures SlotFits(bs, log) ==> DecodeCheckpointSlot(bs).recordCount == (|log| - 24) / 84
  {
    hide DecodeCheckpointSlot, FromLE, CheckpointMetadataValid;
    SlotLayout(bs);
  }
}
