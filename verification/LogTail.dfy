/**
 Whole runs of the log: recovery from a file cut off at any byte, and tailing a file that a
 writer keeps appending to.
 */
module LogTail {
  import opened LogFormat
  import opened LogWriter
  import opened LogReader

  // ---------------------------------------------------------------- a truncated file

  /** How many of the records fit entirely into `budget` bytes. */
  ghost function WholeRecords(step: CrcStep, off: nat, rs: seq<seq<Byte>>, budget: int): (n: nat)
    requires off <= BLOCK
    ensures n <= |rs|
    decreases |rs|
  {
    if rs == [] || |RecordBytes(step, off, rs[0], true)| > budget then 0
    else 1 + WholeRecords(step, RecordEnd(off, rs[0], true), rs[1..], budget - |RecordBytes(step, off, rs[0], true)|)
  }

  /** Record i survives a cut exactly when the log up to and including it does. */
  lemma {:induction false} SurvivesIffPresent(step: CrcStep, off: nat, rs: seq<seq<Byte>>, budget: int, i: nat)
    requires off <= BLOCK && i < |rs|
    ensures i < WholeRecords(step, off, rs, budget) <==> |LogBytes(step, off, rs[..i+1])| <= budget
    decreases |rs|
  {
    var first := RecordBytes(step, off, rs[0], true);
    var mid := RecordEnd(off, rs[0], true);
    LogCons(step, off, rs[..i+1]);
    assert rs[..i+1][0] == rs[0] && rs[..i+1][1..] == rs[1..][..i];
    if i > 0 {
      SurvivesIffPresent(step, mid, rs[1..], budget - |first|, i - 1);
    } else {
      assert rs[1..][..0] == [];
    }
  }

  lemma {:induction false} SplitAllAtBlock(rs: seq<seq<Byte>>)
    ensures SplitAll(0, rs) == SplitAll(BLOCK, rs)
  {
    if rs != [] {
      assert Split(0, rs[0], true) == Split(BLOCK, rs[0], true);
    }
  }

  lemma LogBytesAtBlock(step: CrcStep, rs: seq<seq<Byte>>)
    ensures LogBytes(step, 0, rs) == LogBytes(step, BLOCK, rs)
  {
    SplitAllAtBlock(rs);
    FitsAtBlock(step, SplitAll(0, rs));
  }

  /** Reads records until ReadRecord returns false. */
  method ReadToEof(reader: Reader, ghost off: nat, ghost rs: seq<seq<Byte>>) returns (out: seq<seq<Byte>>)
    requires off <= BLOCK && reader.At(off, SplitAll(off, rs))
    modifies reader
    ensures out == rs[..WholeRecords(reader.step, off, rs, old(reader.Limit() - reader.Pos()))]
    ensures reader.corruptions == old(reader.corruptions)
  {
    hide Layout, Reader.At, SplitAll;
    out := [];
    ghost var at: nat := off;
    ghost var rest := rs;
    ghost var n := WholeRecords(reader.step, off, rs, reader.Limit() - reader.Pos());
    while true
      invariant at <= BLOCK && reader.At(at, SplitAll(at, rest)) && reader.corruptions == old(reader.corruptions)
      invariant |out| <= |rs| && out == rs[..|out|] && rest == rs[|out|..]
      invariant n == |out| + WholeRecords(reader.step, at, rest, reader.Limit() - reader.Pos())
      decreases |rest|
    {
      var found, record;
      ghost var here: nat := at;
      found, record, at := reader.ReadRecord(here, rest);
      if !found {
        return;
      }
      out := out + [record];
      rest := rest[1..];
    }
  }

  /**
   Recovery: of a log of any records, cut off at any byte, the reader returns exactly the records
   that are entirely there, in order, and reports no corruption.
   */
  method RecoverTruncated(step: CrcStep, checksum: bool, ghost records: seq<seq<Byte>>, file: seq<Byte>)
      returns (out: seq<seq<Byte>>, corruptions: nat)
    requires file <= LogBytes(step, 0, records)
    ensures out == records[..WholeRecords(step, 0, records, |file|)]
    ensures corruptions == 0
  {
    var reader := new Reader(step, checksum, file);
    SplitAllAtBlock(records);
    FitsAtBlock(step, SplitAll(0, records));
    assert file[0..] == file;
    WholeAtBlock(step, records, |file|);
    out := ReadToEof(reader, BLOCK, records);
    corruptions := reader.corruptions;
  }

  lemma WholeAtBlock(step: CrcStep, rs: seq<seq<Byte>>, budget: int)
    ensures WholeRecords(step, 0, rs, budget) == WholeRecords(step, BLOCK, rs, budget)
  {
    if rs != [] {
      assert Split(0, rs[0], true) == Split(BLOCK, rs[0], true);
      SplitFits(0, rs[0], true);
      FitsAtBlock(step, Split(0, rs[0], true));
    }
  }

  // ---------------------------------------------------------------- a growing file

  /** Two block offsets at which the next record is laid out alike. */
  ghost predicate SameSpot(a: nat, b: nat)
  {
    a == b || ((a == 0 || a == BLOCK) && (b == 0 || b == BLOCK))
  }

  lemma SameSpotBytes(step: CrcStep, a: nat, b: nat, rs: seq<seq<Byte>>)
    requires a <= BLOCK && b <= BLOCK && SameSpot(a, b)
    ensures LogBytes(step, a, rs) == LogBytes(step, b, rs)
    ensures SameSpot(LogEnd(a, rs), LogEnd(b, rs)) && (rs != [] ==> LogEnd(a, rs) == LogEnd(b, rs))
  {
    LogBytesAtBlock(step, rs);
    SplitAllAtBlock(rs);
  }

  lemma NoRecords(step: CrcStep, off: nat)
    requires off <= BLOCK
    ensures LogBytes(step, off, []) == []
  {
  }

  /** A writer and a reader of the same file, and what the reader has delivered so far. */
  class Tail {
    const writer: Writer
    const reader: Reader
    var delivered: seq<seq<Byte>>
    ghost var off: nat                    // the reader's block offset
    ghost var pending: seq<seq<Byte>>     // written and not yet delivered
    ghost var reach: nat                  // how many of them lie before the reader's limit

    constructor (step: CrcStep, checksum: bool)
      ensures Valid() && fresh(writer) && fresh(reader) && delivered == [] && writer.records == []
    {
      writer := new Writer(step);
      reader := new Reader(step, checksum, []);
      delivered, off, pending, reach := [], BLOCK, [], 0;
    }

    /** The unread part of the file is exactly the log of the pending records; at EOF the limit is a record boundary. */
    ghost predicate Valid()
      reads this, writer, reader
    {
      && writer.Valid() && writer.step == reader.step && reader.file == writer.dest
      && writer.records == delivered + pending
      && off <= BLOCK && reader.At(off, SplitAll(off, pending))
      && reader.file[reader.Pos()..] == LogBytes(reader.step, off, pending)
      && SameSpot(LogEnd(off, pending), writer.blockOffset)
      && reach <= |pending| && reader.Pos() + |LogBytes(reader.step, off, pending[..reach])| == reader.Limit()
      && reader.corruptions == 0
    }

    /** The writer appends one whole record, wherever the reader stands. */
    method Append(r: seq<Byte>)
      requires Valid()
      modifies this, writer, reader
      ensures Valid() && delivered == old(delivered) && pending == old(pending) + [r]
      ensures reader.eof == old(reader.eof) && (reader.eof ==> reach == old(reach))
    {
      hide Layout, SplitAll, EndOff, Fits;
      ghost var at, w := LogEnd(off, pending), writer.blockOffset;
      LogAppend(writer.step, 0, writer.records, [r]);
      LogAppend(writer.step, off, pending, [r]);
      SameSpotBytes(writer.step, at, w, [r]);
      writer.AddRecord(r);
      Appended(reader.file, writer.dest, reader.Pos(), LogBytes(reader.step, off, pending),
        LogBytes(reader.step, at, [r]));
      assert pending[..reach] == (pending + [r])[..reach];
      reader.file := writer.dest;
      pending := pending + [r];
      if !reader.eof {
        reach := |pending|;
        assert pending[..reach] == pending;
      }
    }

    static lemma Appended(f: seq<Byte>, f': seq<Byte>, p: int, a: seq<Byte>, b: seq<Byte>)
      requires f' == f + b && 0 <= p <= |f| && f[p..] == a
      ensures f'[p..] == a + b && forall q :: p <= q <= |f| ==> f'[p..q] == f[p..q]
    {
    }

    /** One ReadRecord: the oldest pending record if it lies before the limit, and otherwise nothing changes. */
    method Read() returns (found: bool)
      requires Valid()
      modifies this, reader
      ensures Valid() && (found <==> old(reach) > 0)
      ensures found ==>
        pending == old(pending)[1..] && delivered == old(delivered) + [old(pending)[0]] && reach == old(reach) - 1
      ensures !found ==> pending == old(pending) && delivered == old(delivered) && reach == 0
    {
      hide Layout, SplitAll, EndOff, Fits, Split;
      ghost var o: nat := off;
      if reach > 0 {
        LogCons(reader.step, off, pending[..reach]);
        LogCons(reader.step, off, pending);
        assert pending[..reach][1..] == pending[1..][..reach - 1];
      } else {
        NoRecords(reader.step, off);
        assert pending[..0] == [];
      }
      var record;
      found, record, off := reader.ReadRecord(o, pending);
      if found {
        delivered := delivered + [record];
        pending := pending[1..];
        reach := reach - 1;
      } else {
        NoRecords(reader.step, off);
        SplitAllAtBlock(pending);
        SameSpotBytes(reader.step, o, off, pending);
      }
    }

    /** UnmarkEOF: everything written so far comes within reach. */
    method Unmark()
      requires Valid()
      modifies this, reader
      ensures Valid() && pending == old(pending) && delivered == old(delivered) && reach == |pending|
    {
      hide Layout, SplitAll, EndOff, Fits;
      ghost var o: nat := off;
      off := reader.UnmarkEOF(o, SplitAll(o, pending));
      SplitAllAtBlock(pending);
      SameSpotBytes(reader.step, o, off, pending);
      reach := |pending|;
      assert pending[..reach] == pending;
    }

    /** After UnmarkEOF, reading to EOF delivers every record written, each once and in order. */
    method CatchUp()
      requires Valid()
      modifies this, reader
      ensures Valid() && delivered == writer.records && writer.records == old(writer.records)
    {
      Unmark();
      var more := true;
      while more
        invariant Valid() && (if more then reach == |pending| else pending == [])
        invariant writer.records == old(writer.records)
        decreases |pending|, more
      {
        more := Read();
      }
    }
  }
}
