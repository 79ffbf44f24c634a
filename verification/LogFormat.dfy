/**
 The packed on-disk structs of the log and of its journal, their checksums and
 the conversion between runtime and persisted records.

 A `double` is its 64-bit pattern.
 */
module LogFormat {
  import opened Bytes
  import opened Crc32

  const LOG_FILE_MAGIC: u32 := 0x464C4F47
  const LOG_RECORD_MAGIC: u32 := 0x46524344
  const JOURNAL_MAGIC: u32 := 0x464A4E4C
  const LOG_FORMAT_VERSION: u16 := 1
  const JOURNAL_STATE_PENDING: u32 := 1
  const CHECKPOINT_JOURNAL_VERSION: u16 := 2

  const PAYLOAD_SIZE: u32 := 52
  const RECORD_SIZE: u32 := 84
  const JOURNAL_ENTRY_SIZE: u32 := 112

  datatype FileHeader = FileHeader(
    magic: u32, version: u16, headerSize: u16, startTime: u64, recordSize: u32, crc: u32)

  datatype RecordHeader = RecordHeader(
    magic: u32, version: u16, headerSize: u16, payloadSize: u32, sequence: u64, timestamp: u64)

  datatype Payload = Payload(
    altitude: u64, airspeed: u64, heading: u64, verticalSpeed: u64,
    engineTemperature: u64, engineRpm: u64, systemStatus: u32)

  datatype FlightRecord = FlightRecord(
    timestamp: u64, altitude: u64, airspeed: u64, heading: u64, verticalSpeed: u64,
    engineTemperature: u64, engineRpm: u64, systemStatus: u32)

  // A record with its sequence number, as it is appended and replayed
  datatype Entry = Entry(sequence: u64, record: FlightRecord)

  datatype CheckpointSlot = CheckpointSlot(
    magic: u32, version: u16, slotSize: u16, generation: u64, startTime: u64,
    committedLength: u64, recordCount: u64, lastSequence: u64, crc: u32)

  datatype JournalEntryHeader = JournalEntryHeader(
    magic: u32, version: u16, headerSize: u16, state: u32, entrySize: u32, sequence: u64)

  // Layouts

  const FILE_HEADER: seq<nat> := [4, 2, 2, 8, 4, 4]
  const RECORD_HEADER: seq<nat> := [4, 2, 2, 4, 8, 8]
  const PAYLOAD: seq<nat> := [8, 8, 8, 8, 8, 8, 4]
  const SLOT: seq<nat> := [4, 2, 2, 8, 8, 8, 8, 8, 4]
  const JOURNAL_HEADER: seq<nat> := [4, 2, 2, 4, 4, 8]

  lemma TotalOfThree(widths: seq<nat>)
    requires |widths| >= 3
    ensures Total(widths) == widths[0] + widths[1] + widths[2] + Total(widths[3..])
  {
    assert widths[1..][1..] == widths[2..] && widths[2..][1..] == widths[3..];
  }

  lemma Sizes()
    ensures Total(FILE_HEADER) == 24 && Total(RECORD_HEADER) == 28 && Total(PAYLOAD) == 52
    ensures Total(SLOT) == 52 && Total(JOURNAL_HEADER) == 24
  {
    hide Total;
    TotalOfThree(FILE_HEADER);
    TotalOfThree(RECORD_HEADER);
    TotalOfThree(PAYLOAD);
    TotalOfThree(SLOT);
    TotalOfThree(JOURNAL_HEADER);
    TotalOfThree(FILE_HEADER[3..]);
    TotalOfThree(RECORD_HEADER[3..]);
    TotalOfThree(PAYLOAD[3..]);
    TotalOfThree(SLOT[3..]);
    TotalOfThree(SLOT[3..][3..]);
    TotalOfThree(JOURNAL_HEADER[3..]);
    TotalOfOne(PAYLOAD[3..][3..]);
    NothingTotals();
    assert FILE_HEADER[3..][3..] == RECORD_HEADER[3..][3..] == JOURNAL_HEADER[3..][3..] == SLOT[3..][3..][3..] == [];
  }

  lemma TotalOfOne(widths: seq<nat>)
    requires |widths| == 1
    ensures Total(widths) == widths[0]
  {}

  lemma NothingTotals()
    ensures Total([]) == 0
  {}

  function EncodeFileHeader(h: FileHeader): (bs: seq<byte>)
    ensures |bs| == 24
  {
    Sizes();
    Pack(FILE_HEADER, [h.magic, h.version, h.headerSize, h.startTime, h.recordSize, h.crc])
  }

  function DecodeFileHeader(bs: seq<byte>): FileHeader
    requires |bs| == 24
  {
    Sizes();
    FieldWidths();
    var v := Unpack(FILE_HEADER, bs);
    FileHeader(v[0], v[1], v[2], v[3], v[4], v[5])
  }

  lemma FileHeaderRoundTrip(h: FileHeader)
    ensures DecodeFileHeader(EncodeFileHeader(h)) == h
  {
    hide Pack, Unpack, Total, Pow256;
    Sizes();
    FieldWidths();
    UnpackPack(FILE_HEADER, [h.magic, h.version, h.headerSize, h.startTime, h.recordSize, h.crc]);
  }

  lemma FileHeaderBytes(bs: seq<byte>)
    requires |bs| == 24
    ensures EncodeFileHeader(DecodeFileHeader(bs)) == bs
  {
    hide Pack, Unpack, Total, Pow256;
    Sizes();
    PackUnpack(FILE_HEADER, bs);
    var v, h := Unpack(FILE_HEADER, bs), DecodeFileHeader(bs);
    assert v == [h.magic, h.version, h.headerSize, h.startTime, h.recordSize, h.crc];
  }

  function EncodeRecordHeader(h: RecordHeader): (bs: seq<byte>)
    ensures |bs| == 28
  {
    Sizes();
    Pack(RECORD_HEADER, [h.magic, h.version, h.headerSize, h.payloadSize, h.sequence, h.timestamp])
  }

  function DecodeRecordHeader(bs: seq<byte>): RecordHeader
    requires |bs| == 28
  {
    Sizes();
    FieldWidths();
    var v := Unpack(RECORD_HEADER, bs);
    RecordHeader(v[0], v[1], v[2], v[3], v[4], v[5])
  }

  lemma RecordHeaderRoundTrip(h: RecordHeader)
    ensures DecodeRecordHeader(EncodeRecordHeader(h)) == h
  {
    hide Pack, Unpack, Total, Pow256;
    Sizes();
    FieldWidths();
    UnpackPack(RECORD_HEADER, [h.magic, h.version, h.headerSize, h.payloadSize, h.sequence, h.timestamp]);
  }

  lemma RecordHeaderBytes(bs: seq<byte>)
    requires |bs| == 28
    ensures EncodeRecordHeader(DecodeRecordHeader(bs)) == bs
  {
    hide Pack, Unpack, Total, Pow256;
    Sizes();
    PackUnpack(RECORD_HEADER, bs);
    var v, h := Unpack(RECORD_HEADER, bs), DecodeRecordHeader(bs);
    assert v == [h.magic, h.version, h.headerSize, h.payloadSize, h.sequence, h.timestamp];
  }

  function EncodePayload(p: Payload): (bs: seq<byte>)
    ensures |bs| == 52
  {
    Sizes();
    Pack(PAYLOAD, [p.altitude, p.airspeed, p.heading, p.verticalSpeed, p.engineTemperature, p.engineRpm,
                   p.systemStatus])
  }

  function DecodePayload(bs: seq<byte>): Payload
    requires |bs| == 52
  {
    Sizes();
    FieldWidths();
    var v := Unpack(PAYLOAD, bs);
    Payload(v[0], v[1], v[2], v[3], v[4], v[5], v[6])
  }

  lemma PayloadRoundTrip(p: Payload)
    ensures DecodePayload(EncodePayload(p)) == p
  {
    hide Pack, Unpack, Total, Pow256;
    Sizes();
    FieldWidths();
    UnpackPack(PAYLOAD, [p.altitude, p.airspeed, p.heading, p.verticalSpeed, p.engineTemperature, p.engineRpm,
                         p.systemStatus]);
  }

  lemma PayloadBytes(bs: seq<byte>)
    requires |bs| == 52
    ensures EncodePayload(DecodePayload(bs)) == bs
  {
    hide Pack, Unpack, Total, Pow256;
    Sizes();
    PackUnpack(PAYLOAD, bs);
    var v, p := Unpack(PAYLOAD, bs), DecodePayload(bs);
    assert v == [p.altitude, p.airspeed, p.heading, p.verticalSpeed, p.engineTemperature, p.engineRpm, p.systemStatus];
  }

  function EncodeCheckpointSlot(s: CheckpointSlot): (bs: seq<byte>)
    ensures |bs| == 52
  {
    Sizes();
    Pack(SLOT, [s.magic, s.version, s.slotSize, s.generation, s.startTime, s.committedLength, s.recordCount,
                s.lastSequence, s.crc])
  }

  function DecodeCheckpointSlot(bs: seq<byte>): CheckpointSlot
    requires |bs| == 52
  {
    Sizes();
    FieldWidths();
    var v := Unpack(SLOT, bs);
    CheckpointSlot(v[0], v[1], v[2], v[3], v[4], v[5], v[6], v[7], v[8])
  }

  lemma CheckpointSlotRoundTrip(s: CheckpointSlot)
    ensures DecodeCheckpointSlot(EncodeCheckpointSlot(s)) == s
  {
    hide Pack, Unpack, Total, Pow256;
    Sizes();
    FieldWidths();
    UnpackPack(SLOT, [s.magic, s.version, s.slotSize, s.generation, s.startTime, s.committedLength, s.recordCount,
                      s.lastSequence, s.crc]);
  }

  lemma CheckpointSlotBytes(bs: seq<byte>)
    requires |bs| == 52
    ensures EncodeCheckpointSlot(DecodeCheckpointSlot(bs)) == bs
  {
    hide Pack, Unpack, Total, Pow256;
    Sizes();
    PackUnpack(SLOT, bs);
    var v, s := Unpack(SLOT, bs), DecodeCheckpointSlot(bs);
    assert v == [s.magic, s.version, s.slotSize, s.generation, s.startTime, s.committedLength, s.recordCount,
                 s.lastSequence, s.crc];
  }

  function EncodeJournalEntryHeader(h: JournalEntryHeader): (bs: seq<byte>)
    ensures |bs| == 24
  {
    Sizes();
    Pack(JOURNAL_HEADER, [h.magic, h.version, h.headerSize, h.state, h.entrySize, h.sequence])
  }

  function DecodeJournalEntryHeader(bs: seq<byte>): JournalEntryHeader
    requires |bs| == 24
  {
    Sizes();
    FieldWidths();
    var v := Unpack(JOURNAL_HEADER, bs);
    JournalEntryHeader(v[0], v[1], v[2], v[3], v[4], v[5])
  }

  lemma JournalEntryHeaderRoundTrip(h: JournalEntryHeader)
    ensures DecodeJournalEntryHeader(EncodeJournalEntryHeader(h)) == h
  {
    hide Pack, Unpack, Total, Pow256;
    Sizes();
    FieldWidths();
    UnpackPack(JOURNAL_HEADER, [h.magic, h.version, h.headerSize, h.state, h.entrySize, h.sequence]);
  }

  lemma JournalEntryHeaderBytes(bs: seq<byte>)
    requires |bs| == 24
    ensures EncodeJournalEntryHeader(DecodeJournalEntryHeader(bs)) == bs
  {
    hide Pack, Unpack, Total, Pow256;
    Sizes();
    PackUnpack(JOURNAL_HEADER, bs);
    var v, h := Unpack(JOURNAL_HEADER, bs), DecodeJournalEntryHeader(bs);
    assert v == [h.magic, h.version, h.headerSize, h.state, h.entrySize, h.sequence];
  }

  // Records

  function MakePersistedPayload(r: FlightRecord): Payload {
    Payload(r.altitude, r.airspeed, r.heading, r.verticalSpeed,
            r.engineTemperature, r.engineRpm, r.systemStatus)
  }

  function MakeRuntimeRecord(h: RecordHeader, p: Payload): FlightRecord {
    FlightRecord(h.timestamp, p.altitude, p.airspeed, p.heading, p.verticalSpeed,
                 p.engineTemperature, p.engineRpm, p.systemStatus)
  }

  function HeaderFor(e: Entry): RecordHeader {
    RecordHeader(LOG_RECORD_MAGIC, LOG_FORMAT_VERSION, 28, PAYLOAD_SIZE,
                 e.sequence, e.record.timestamp)
  }

  function ComputeRecordCrc(h: RecordHeader, p: Payload): u32 {
    Crc(EncodeRecordHeader(h) + EncodePayload(p))
  }

  predicate RecordMetadataOk(h: RecordHeader) {
    && h.magic == LOG_RECORD_MAGIC
    && h.version == LOG_FORMAT_VERSION
    && h.headerSize == 28
    && h.payloadSize == PAYLOAD_SIZE
  }

  // The parts of a record of 84 bytes

  function HeaderPart(r: seq<byte>): RecordHeader
    requires |r| == 84
  {
    DecodeRecordHeader(r[..28])
  }

  function PayloadPart(r: seq<byte>): Payload
    requires |r| == 84
  {
    DecodePayload(r[28..80])
  }

  function CrcPart(r: seq<byte>): nat
    requires |r| == 84
  {
    FromLE(r[80..])
  }

  predicate RecordOk(r: seq<byte>)
    requires |r| == 84
  {
    && RecordMetadataOk(HeaderPart(r))
    && CrcPart(r) == ComputeRecordCrc(HeaderPart(r), PayloadPart(r))
  }

  function EntryOf(r: seq<byte>): Entry
    requires |r| == 84
  {
    Entry(HeaderPart(r).sequence, MakeRuntimeRecord(HeaderPart(r), PayloadPart(r)))
  }

  function EncodeRecord(e: Entry): (r: seq<byte>)
    ensures |r| == 84
  {
    var h, p := HeaderFor(e), MakePersistedPayload(e.record);
    EncodeRecordHeader(h) + EncodePayload(p) + ToLE(ComputeRecordCrc(h, p), 4)
  }

  // The checksum over two structs is the checksum of the 80 bytes on disk.
  lemma RecordCrcIsContiguous(r: seq<byte>)
    requires |r| == 84
    ensures ComputeRecordCrc(HeaderPart(r), PayloadPart(r)) == Crc(r[..80])
  {
    hide Crc, DecodeRecordHeader, DecodePayload, EncodeRecordHeader, EncodePayload;
    RecordHeaderBytes(r[..28]);
    PayloadBytes(r[28..80]);
    assert r[..28] + r[28..80] == r[..80];
  }

  lemma RecordRoundTrip(e: Entry)
    ensures RecordOk(EncodeRecord(e))
    ensures EntryOf(EncodeRecord(e)) == e
  {
    hide Crc, DecodeRecordHeader, DecodePayload, EncodeRecordHeader, EncodePayload, Pow256;
    var h, p, r := HeaderFor(e), MakePersistedPayload(e.record), EncodeRecord(e);
    assert r[..28] == EncodeRecordHeader(h);
    assert r[28..80] == EncodePayload(p);
    assert r[80..] == ToLE(ComputeRecordCrc(h, p), 4);
    RecordHeaderRoundTrip(h);
    PayloadRoundTrip(p);
    FieldWidths();
    FromToLE(ComputeRecordCrc(h, p), 4);
  }

  // File header

  function ComputeFileHeaderCrc(h: FileHeader): u32 {
    Crc(EncodeFileHeader(h.(crc := 0)))
  }

  function NewFileHeader(startTime: u64): FileHeader {
    var h := FileHeader(LOG_FILE_MAGIC, LOG_FORMAT_VERSION, 24, startTime, RECORD_SIZE, 0);
    h.(crc := ComputeFileHeaderCrc(h))
  }

  predicate FileHeaderMetadataOk(h: FileHeader) {
    && h.magic == LOG_FILE_MAGIC
    && h.version == LOG_FORMAT_VERSION
    && h.headerSize == 24
    && h.recordSize == RECORD_SIZE
  }

  predicate FileHeaderOk(h: FileHeader) {
    FileHeaderMetadataOk(h) && ComputeFileHeaderCrc(h) == h.crc
  }

  // Checkpoint slots

  function ComputeCheckpointCrc(s: CheckpointSlot): u32 {
    Crc(EncodeCheckpointSlot(s.(crc := 0)))
  }

  function NewCheckpoint(generation: u64, startTime: u64, length: u64, count: u64, last: u64)
    : CheckpointSlot
  {
    var s := CheckpointSlot(JOURNAL_MAGIC, CHECKPOINT_JOURNAL_VERSION, 52,
                            generation, startTime, length, count, last, 0);
    s.(crc := ComputeCheckpointCrc(s))
  }

  predicate CheckpointMetadataValid(s: CheckpointSlot) {
    && s.magic == JOURNAL_MAGIC
    && s.version == CHECKPOINT_JOURNAL_VERSION
    && s.slotSize == 52
    && s.generation != 0
    && ComputeCheckpointCrc(s) == s.crc
  }

  // A slot is valid exactly when it is a checkpoint that the writer could write.
  lemma CheckpointMetadataMeaning(s: CheckpointSlot)
    ensures CheckpointMetadataValid(s) <==>
      s.generation != 0 &&
      s == NewCheckpoint(s.generation, s.startTime, s.committedLength, s.recordCount, s.lastSequence)
  {
    hide Crc, EncodeCheckpointSlot;
  }

  // Entries of the legacy single-record journal

  datatype JournalEntry = JournalEntry(
    header: JournalEntryHeader, recordHeader: RecordHeader, payload: Payload,
    recordCrc: u32, journalCrc: u32)

  function EncodeJournalEntry(j: JournalEntry): (bs: seq<byte>)
    ensures |bs| == 112
  {
    EncodeJournalEntryHeader(j.header) + EncodeRecordHeader(j.recordHeader)
      + EncodePayload(j.payload) + ToLE(j.recordCrc, 4) + ToLE(j.journalCrc, 4)
  }

  function DecodeJournalEntry(bs: seq<byte>): JournalEntry
    requires |bs| == 112
  {
    FieldWidths();
    ToFromLE(bs[104..108]);
    ToFromLE(bs[108..]);
    JournalEntry(DecodeJournalEntryHeader(bs[..24]), DecodeRecordHeader(bs[24..52]),
                 DecodePayload(bs[52..104]), FromLE(bs[104..108]), FromLE(bs[108..]))
  }

  // The whole entry survives packing into 112 bytes ...
  lemma JournalEntryRoundTrip(j: JournalEntry)
    ensures DecodeJournalEntry(EncodeJournalEntry(j)) == j
  {
    hide Pack, Unpack, Total, Pow256, ToLE, FromLE;
    hide EncodeJournalEntryHeader, EncodeRecordHeader, EncodePayload;
    hide DecodeJournalEntryHeader, DecodeRecordHeader, DecodePayload;
    var bs := EncodeJournalEntry(j);
    FieldWidths();
    assert bs[..24] == EncodeJournalEntryHeader(j.header);
    assert bs[24..52] == EncodeRecordHeader(j.recordHeader);
    assert bs[52..104] == EncodePayload(j.payload);
    assert bs[104..108] == ToLE(j.recordCrc, 4) && bs[108..] == ToLE(j.journalCrc, 4);
    JournalEntryHeaderRoundTrip(j.header);
    RecordHeaderRoundTrip(j.recordHeader);
    PayloadRoundTrip(j.payload);
    FromToLE(j.recordCrc, 4);
    FromToLE(j.journalCrc, 4);
  }

  // ... and 112 bytes survive unpacking into an entry.
  lemma JournalEntryBytes(bs: seq<byte>)
    requires |bs| == 112
    ensures EncodeJournalEntry(DecodeJournalEntry(bs)) == bs
  {
    hide Pack, Unpack, Total, Pow256, ToLE, FromLE;
    hide EncodeJournalEntryHeader, EncodeRecordHeader, EncodePayload;
    hide DecodeJournalEntryHeader, DecodeRecordHeader, DecodePayload;
    JournalEntryHeaderBytes(bs[..24]);
    RecordHeaderBytes(bs[24..52]);
    PayloadBytes(bs[52..104]);
    ToFromLE(bs[104..108]);
    ToFromLE(bs[108..]);
    assert bs == bs[..24] + bs[24..52] + bs[52..104] + bs[104..108] + bs[108..];
  }

  function ComputeJournalCrc(j: JournalEntry): u32 {
    Crc(EncodeJournalEntry(j.(journalCrc := 0)))
  }

  // The record bytes that recovery appends for a pending entry
  function JournaledRecord(j: JournalEntry): (r: seq<byte>)
    ensures |r| == 84
  {
    EncodeRecordHeader(j.recordHeader) + EncodePayload(j.payload) + ToLE(j.recordCrc, 4)
  }

  predicate JournalEntryValid(j: JournalEntry) {
    && j.header.magic == JOURNAL_MAGIC
    && j.header.version == LOG_FORMAT_VERSION
    && j.header.headerSize == 112
    && j.header.entrySize == JOURNAL_ENTRY_SIZE
    && j.header.state == JOURNAL_STATE_PENDING
    && ComputeJournalCrc(j) == j.journalCrc
    && RecordMetadataOk(j.recordHeader)
    && j.recordHeader.sequence == j.header.sequence
    && ComputeRecordCrc(j.recordHeader, j.payload) == j.recordCrc
  }

  lemma JournaledRecordOk(j: JournalEntry)
    requires JournalEntryValid(j)
    ensures RecordOk(JournaledRecord(j))
    ensures HeaderPart(JournaledRecord(j)).sequence == j.header.sequence
  {
    hide Crc, DecodeRecordHeader, DecodePayload, EncodeRecordHeader, EncodePayload, Pow256;
    hide ComputeJournalCrc;
    var r := JournaledRecord(j);
    assert r[..28] == EncodeRecordHeader(j.recordHeader);
    assert r[28..80] == EncodePayload(j.payload);
    assert r[80..] == ToLE(j.recordCrc, 4);
    RecordHeaderRoundTrip(j.recordHeader);
    PayloadRoundTrip(j.payload);
    FieldWidths();
    FromToLE(j.recordCrc, 4);
  }
}
