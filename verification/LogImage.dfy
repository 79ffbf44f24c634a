/**
 The bytes of a log that holds given entries, and the round trip from entries to
 bytes and back through the scan.
 */
module LogImage {
  import opened Bytes
  import opened LogFormat
  import opened LogScanner

  const TWO64: nat := 0x1_0000_0000_0000_0000

  function EncodeEntries(es: seq<Entry>): (bs: seq<byte>)
    ensures |bs| == 84 * |es|
  {
    if |es| == 0 then [] else EncodeRecord(es[0]) + EncodeEntries(es[1..])
  }

  function Image(startTime: u64, es: seq<Entry>): (bs: seq<byte>)
    ensures |bs| == Boundary(|es|)
  {
    EncodeFileHeader(NewFileHeader(startTime)) + EncodeEntries(es)
  }

  // Contiguity as the writer checks it, with 64-bit wrap-around
  predicate Successive(es: seq<Entry>) {
    forall i :: 0 < i < |es| ==> es[i].sequence == (es[i - 1].sequence + 1) % TWO64
  }

  // Contiguity as the scan checks it
  predicate Contiguous(es: seq<Entry>) {
    forall i :: 0 < i < |es| ==> es[i].sequence == es[i - 1].sequence + 1
  }

  // The entries do not run past the largest sequence number.
  predicate FitsSequence(es: seq<Entry>) {
    |es| > 0 ==> es[0].sequence + |es| <= TWO64
  }

  lemma {:induction false} EncodeAppend(a: seq<Entry>, b: seq<Entry>)
    ensures EncodeEntries(a + b) == EncodeEntries(a) + EncodeEntries(b)
  {
    hide EncodeRecord;
    if |a| == 0 {
      assert a + b == b;
    } else {
      assert (a + b)[1..] == a[1..] + b;
      EncodeAppend(a[1..], b);
    }
  }

  lemma ImageAppend(startTime: u64, a: seq<Entry>, b: seq<Entry>)
    ensures Image(startTime, a + b) == Image(startTime, a) + EncodeEntries(b)
  {
    hide EncodeEntries, EncodeFileHeader;
    EncodeAppend(a, b);
  }

  lemma ImagePrefix(startTime: u64, es: seq<Entry>, n: nat)
    requires n <= |es|
    ensures Image(startTime, es)[..Boundary(n)] == Image(startTime, es[..n])
  {
    hide Image;
    assert es == es[..n] + es[n..];
    ImageAppend(startTime, es[..n], es[n..]);
  }

  lemma ImageHeader(startTime: u64, file: seq<byte>)
    requires |file| >= 24 && file[..24] == Image(startTime, [])
    ensures HeaderOk(file) && DecodeFileHeader(file[..24]).startTime == startTime
  {
    hide EncodeFileHeader, DecodeFileHeader, ComputeFileHeaderCrc;
    var h := NewFileHeader(startTime);
    assert Image(startTime, []) == EncodeFileHeader(h);
    FileHeaderRoundTrip(h);
    NewFileHeaderOk(startTime);
  }

  lemma NewFileHeaderOk(startTime: u64)
    ensures FileHeaderOk(NewFileHeader(startTime))
  {
    hide EncodeFileHeader;
  }

  // The i-th record of a file that starts with the image of es
  lemma ImageRecord(startTime: u64, es: seq<Entry>, file: seq<byte>, i: nat)
    requires i < |es| && |file| >= Boundary(|es|)
    requires file[..Boundary(|es|)] == Image(startTime, es)
    ensures RecordAt(file, i) == EncodeRecord(es[i])
  {
    hide EncodeRecord, EncodeFileHeader;
    var head, tail := es[..i], es[i + 1..];
    assert es == head + ([es[i]] + tail);
    ImageAppend(startTime, head, [es[i]] + tail);
    assert ([es[i]] + tail)[1..] == tail;
    var image := Image(startTime, head) + (EncodeRecord(es[i]) + EncodeEntries(tail));
    assert image == Image(startTime, es);
    assert RecordAt(file, i) == image[Boundary(i)..Boundary(i + 1)];
  }

  // A record of the image is valid exactly when it follows its predecessor.
  lemma ImageRecordValid(startTime: u64, es: seq<Entry>, file: seq<byte>, i: nat)
    requires i < |es| && |file| >= Boundary(|es|)
    requires file[..Boundary(|es|)] == Image(startTime, es)
    ensures EntryOf(RecordAt(file, i)) == es[i]
    ensures RecordValid(file, i) <==> (i > 0 ==> es[i].sequence == es[i - 1].sequence + 1)
  {
    hide EncodeRecord, RecordOk, Image, HeaderPart;
    ImageRecord(startTime, es, file, i);
    RecordRoundTrip(es[i]);
    if i > 0 {
      ImageRecord(startTime, es, file, i - 1);
      RecordRoundTrip(es[i - 1]);
    }
  }

  // A file that starts with the image of contiguous entries scans to them.
  lemma ImageScans(startTime: u64, es: seq<Entry>, file: seq<byte>)
    requires |file| >= Boundary(|es|) && file[..Boundary(|es|)] == Image(startTime, es)
    requires Contiguous(es)
    ensures ValidPrefix(file, |es|)
    ensures Entries(file, |es|) == es
    ensures DecodeFileHeader(file[..24]).startTime == startTime
  {
    hide RecordValid, HeaderOk, Image, EntryOf, FileHeaderOk, DecodeFileHeader;
    ImagePrefix(startTime, es, 0);
    assert es[..0] == [];
    assert file[..24] == file[..Boundary(|es|)][..24];
    ImageHeader(startTime, file);
    forall i | 0 <= i < |es|
      ensures RecordValid(file, i) && EntryOf(RecordAt(file, i)) == es[i]
    {
      ImageRecordValid(startTime, es, file, i);
    }
  }

  lemma {:induction false} SuccessiveFits(es: seq<Entry>, n: nat)
    requires Successive(es) && FitsSequence(es) && n < |es|
    ensures es[n].sequence == es[0].sequence + n
  {
    if n > 0 {
      SuccessiveFits(es, n - 1);
    }
  }

  lemma {:induction false} ContiguousRuns(es: seq<Entry>, n: nat)
    requires Contiguous(es) && n < |es|
    ensures es[n].sequence == es[0].sequence + n
  {
    if n > 0 {
      ContiguousRuns(es, n - 1);
    }
  }

  // Entries accepted by the writer are contiguous for the scan exactly when
  // they do not wrap.
  lemma WrapCondition(es: seq<Entry>)
    requires Successive(es)
    ensures Contiguous(es) <==> FitsSequence(es)
  {
    if FitsSequence(es) {
      forall i | 0 < i < |es|
        ensures es[i].sequence == es[i - 1].sequence + 1
      {
        SuccessiveFits(es, i);
        SuccessiveFits(es, i - 1);
      }
    }
    if Contiguous(es) && |es| > 0 {
      ContiguousRuns(es, |es| - 1);
    }
  }

  // Serializing and scanning returns exactly the appended entries, if and only
  // if their sequence numbers do not wrap.
  lemma RoundTrip(startTime: u64, es: seq<Entry>)
    requires Successive(es)
    ensures
      var file := Image(startTime, es);
      (Healthy(file, |es|) && Entries(file, |es|) == es) <==> FitsSequence(es)
  {
    hide RecordValid, HeaderOk, Image;
    var file := Image(startTime, es);
    assert file[..Boundary(|es|)] == file;
    WrapCondition(es);
    if FitsSequence(es) {
      ImageScans(startTime, es, file);
    } else {
      var i :| 0 < i < |es| && es[i].sequence != es[i - 1].sequence + 1;
      ImageRecordValid(startTime, es, file, i);
    }
  }

  // The wrap that the writer accepts and the scan refuses
  lemma WrapIsRefused(r: FlightRecord, startTime: u64)
    ensures
      var es := [Entry(U64_MAX, r), Entry(0, r)];
      && Successive(es)
      && !FitsSequence(es)
      && ValidCount(Image(startTime, es)) == 1
  {
    hide RecordValid, HeaderOk, Image;
    var es := [Entry(U64_MAX, r), Entry(0, r)];
    var file := Image(startTime, es);
    assert file[..Boundary(2)] == file;
    ImagePrefix(startTime, es, 1);
    assert file[..Boundary(1)] == Image(startTime, es[..1]);
    ImageScans(startTime, es[..1], file);
    ImageRecordValid(startTime, es, file, 1);
    LongestPrefix(file, 1);
  }
}
