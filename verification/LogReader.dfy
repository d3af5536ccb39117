/**
 log::Reader (rocksdb-3.9/db/log_reader.cc), started at offset 0 on a file that read errors do not
 touch: block-wise reading, reassembly of fragments, and tailing a growing file.
 */
module LogReader {
  import opened LogFormat
  import opened LogWriter

  /** What ReadPhysicalRecord returns: a record type with its payload, kEof or kBadRecord. */
  datatype Physical = Record(kind: Byte, data: seq<Byte>) | Eof | Bad

  /** The outcome of looking at a buffer that holds at least a header. */
  datatype Parsed = Parsed(physical: Physical, rest: seq<Byte>, reports: nat)

  function Classify(step: CrcStep, checksum: bool, buf: seq<Byte>, eof: bool): (r: Parsed)
    requires |buf| >= HEADER
  {
    var length := LengthAt(buf);
    if HEADER + length > |buf| then Parsed(if eof then Eof else Bad, [], if eof then 0 else 1)
    else if buf[6] == 0 && length == 0 then Parsed(Bad, [], 0)
    else if checksum && Value(step, buf[6..HEADER + length]) != Unmask(Decode32(buf)) then Parsed(Bad, [], 1)
    else Parsed(Record(buf[6], buf[HEADER..HEADER + length]), buf[HEADER + length..], 0)
  }

  /** What is delivered from any bytes: exactly the payload that the header announces, with the checksum agreeing. */
  lemma DeliversChecked(step: CrcStep, buf: seq<Byte>, eof: bool)
    requires |buf| >= HEADER
    ensures var r := Classify(step, true, buf, eof);
      if r.physical.Record? then
        && buf == buf[..6] + [r.physical.kind] + r.physical.data + r.rest && LengthAt(buf) == |r.physical.data|
        && r.reports == 0
        && Unmask(Decode32(buf)) == Value(step, [r.physical.kind] + r.physical.data)
      else r.rest == []
  {
    var n := HEADER + LengthAt(buf);
    if n <= |buf| {
      assert buf[6..n] == [buf[6]] + buf[HEADER..n];
      assert buf == buf[..6] + [buf[6]] + buf[HEADER..n] + buf[n..];
    }
  }

  /** Damage to the type or the payload of a written fragment that changes the checksum is reported, and nothing of the
      buffer is delivered. */
  lemma DamageIsReported(step: CrcStep, f: Fragment, kind: Byte, data: seq<Byte>, rest: seq<Byte>, eof: bool)
    requires |data| == |f.data| < 0x1_0000 && !(kind == 0 && data == [])
    requires Value(step, [kind] + data) != Value(step, [Code(f.kind)] + f.data)
    ensures Classify(step, true, Image(step, f)[..6] + [kind] + data + rest, eof) == Parsed(Bad, [], 1)
  {
    var r := Image(step, f);
    var buf := r[..6] + [kind] + data + rest;
    ImageParses(step, f);
    assert r[6..] == [Code(f.kind)] + f.data by { assert r[6..][1..] == r[HEADER..]; }
    assert buf[6..HEADER + |data|] == [kind] + data;
    hide Value, Unmask, Image;
    assert Decode32(buf) == Decode32(r) && LengthAt(buf) == LengthAt(r);
  }

  /** Reassembly of a logical record: in_fragmented_record and scratch. */
  datatype Assembly = Assembly(fragmented: bool, scratch: seq<Byte>)

  datatype Verdict = Got(record: seq<Byte>, reports: nat) | More(a: Assembly, reports: nat) | Stop

  /** The switch of ReadRecord on what ReadPhysicalRecord returned. */
  function Absorb(a: Assembly, p: Physical): (v: Verdict)
  {
    var partial := if a.fragmented && a.scratch != [] then 1 else 0;
    match p
    case Eof => Stop
    case Bad => More(Assembly(false, if a.fragmented then [] else a.scratch), if a.fragmented then 1 else 0)
    case Record(kind, data) =>
      if kind == 1 then Got(data, partial)
      else if kind == 2 then More(Assembly(true, data), partial)
      else if kind == 3 then
        if !a.fragmented then More(a, 1) else More(Assembly(true, a.scratch + data), 0)
      else if kind == 4 then
        if !a.fragmented then More(a, 1) else Got(a.scratch + data, 0)
      else More(Assembly(false, []), 1)
  }

  // ---------------------------------------------------------------- bytes

  /** What can be read off the front of a buffer that starts with (part of) an image. */
  lemma Parse(step: CrcStep, buf: seq<Byte>, f: Fragment, rest: seq<Byte>)
    requires |f.data| < 0x1_0000 && buf <= Image(step, f) + rest && |buf| >= HEADER
    ensures LengthAt(buf) == |f.data| && buf[6] == Code(f.kind)
    ensures |buf| >= HEADER + |f.data| ==>
      && buf[HEADER..HEADER + |f.data|] == f.data
      && Unmask(Decode32(buf)) == Value(step, buf[6..HEADER + |f.data|])
      && buf[HEADER + |f.data|..] <= rest
  {
    var r := Image(step, f);
    ImageParses(step, f);
    forall i | 0 <= i < HEADER ensures buf[i] == r[i] { assert buf[i] == (r + rest)[i]; }
    if |buf| >= HEADER + |f.data| {
      assert buf[..|r|] == r by { assert buf[..|r|] == (r + rest)[..|r|]; }
      assert buf[6..HEADER + |f.data|] == r[6..] by { assert buf[..|r|][6..] == r[6..]; }
      assert buf[HEADER..HEADER + |f.data|] == r[HEADER..] by { assert buf[..|r|][HEADER..] == r[HEADER..]; }
      assert buf[|r|..] <= (r + rest)[|r|..];
    }
  }

  /** A record that starts at a block's end and one that starts at the next block's beginning are laid out alike. */
  lemma LayoutAtBlock(step: CrcStep, off: nat, fs: seq<Fragment>)
    requires off <= BLOCK && Fits(off, fs) && BLOCK - off < HEADER
    ensures Fits(0, fs)
    ensures fs != [] ==> Layout(step, off, fs) == Zeros(PadSize(off)) + Layout(step, 0, fs)
    ensures off == BLOCK ==> Layout(step, off, fs) == Layout(step, 0, fs)
  {
    if fs != [] {
      var next := RecordAt(off) + HEADER + |fs[0].data|;
      LayoutStep(step, off, fs);
      LayoutStep(step, 0, fs);
      assert Zeros(0) + Image(step, fs[0]) == Image(step, fs[0]);
      Associate(Zeros(PadSize(off)), Image(step, fs[0]), Layout(step, next, fs[1..]));
      if off == BLOCK { assert Zeros(0) + Layout(step, 0, fs) == Layout(step, 0, fs); }
    }
  }

  /** Skipping a trailer leaves a prefix of the layout from the next block's start. */
  lemma SkipTrailer(step: CrcStep, rest: seq<Byte>, off: nat, fs: seq<Fragment>)
    requires off <= BLOCK && Fits(off, fs) && BLOCK - off < HEADER && BLOCK - off <= |rest|
    requires rest <= Layout(step, off, fs)
    ensures Fits(0, fs) && rest[BLOCK - off..] <= Layout(step, 0, fs)
  {
    LayoutAtBlock(step, off, fs);
    if fs != [] {
      DropPrefix(rest, Zeros(PadSize(off)), Layout(step, 0, fs));
    }
  }

  lemma DropPrefix(x: seq<Byte>, a: seq<Byte>, b: seq<Byte>)
    requires x <= a + b && |a| <= |x|
    ensures x[|a|..] <= b
  {
    assert x[|a|..] == (a + b)[|a|..|x|];
  }

  lemma Joined(f: seq<Byte>, p: int, q: int, r: int)
    requires 0 <= p <= q <= r <= |f|
    ensures f[p..q] + f[q..r] == f[p..r]
  {
  }

  class Reader {
    const step: CrcStep
    const checksum: bool
    var file: seq<Byte>        // what the file holds now
    var filePos: nat           // how much of it has been read
    var buffer: seq<Byte>
    var eof: bool
    var eofOffset: nat
    var corruptions: nat       // calls of Reporter::Corruption

    constructor (step: CrcStep, checksum: bool, file: seq<Byte>)
      ensures this.step == step && this.file == file && corruptions == 0
      ensures filePos == 0 && buffer == [] && !eof && eofOffset == 0
    {
      this.step, this.checksum, this.file := step, checksum, file;
      filePos, buffer, eof, eofOffset, corruptions := 0, [], false, 0, 0;
    }

    /** The file offset of the next unread byte. */
    ghost function Pos(): (p: int)
      reads this
    {
      filePos - |buffer|
    }

    /** How far the reader will look before it reports EOF. */
    ghost function Limit(): (p: nat)
      reads this
    {
      if eof then filePos else |file|
    }

    /**
     The reader stands at block offset `off`, and the rest of the file is a prefix of the
     layout of fragments fs.
     */
    ghost predicate At(off: nat, fs: seq<Fragment>)
      reads this
    {
      && off <= BLOCK && Fits(off, fs)
      && |buffer| <= filePos <= |file| && buffer == file[Pos()..filePos]
      && file[Pos()..] <= Layout(step, off, fs)
      && (if eof then eofOffset == off + |buffer| < BLOCK else eofOffset == 0 && |buffer| == BLOCK - off)
    }

    /** The next fragment lies entirely before the limit. */
    ghost predicate Present(off: nat, fs: seq<Fragment>)
      reads this
      requires off <= BLOCK
    {
      fs != [] && Pos() + PadSize(off) + HEADER + |fs[0].data| <= Limit()
    }

    /** The last read was a full block, so what is left is a trailer: skip it and read the next block. */
    method Refill(ghost off: nat, ghost fs: seq<Fragment>)
      requires At(off, fs) && !eof && |buffer| < HEADER
      modifies this`filePos, this`buffer, this`eof, this`eofOffset
      ensures At(0, fs) && Limit() == old(Limit()) && Pos() == old(Pos()) + PadSize(off)
      ensures eof || |buffer| == BLOCK
    {
      hide Layout, Fits;
      SkipTrailer(step, file[Pos()..], off, fs);
      assert file[Pos()..][BLOCK - off..] == file[filePos..];
      var n := if |file| - filePos < BLOCK then |file| - filePos else BLOCK;
      buffer := file[filePos..filePos + n];
      filePos := filePos + n;
      if n < BLOCK {
        eof := true;
        eofOffset := n;
      }
    }

    /** ReadPhysicalRecord: the next fragment if it is entirely there, and otherwise EOF without a report. */
    method ReadPhysicalRecord(ghost off: nat, ghost fs: seq<Fragment>) returns (p: Physical, ghost off': nat)
      requires At(off, fs)
      modifies this
      ensures file == old(file) && corruptions == old(corruptions)
      ensures old(Present(off, fs)) ==>
        && p == Record(Code(fs[0].kind), fs[0].data) && off' == RecordAt(off) + HEADER + |fs[0].data|
        && At(off', fs[1..]) && Limit() == old(Limit()) && Pos() == old(Pos()) + PadSize(off) + HEADER + |fs[0].data|
      ensures !old(Present(off, fs)) ==> p == Eof
      ensures !old(Present(off, fs)) && old(Pos() == Limit()) ==>
        At(off', fs) && eof && Limit() == old(Limit()) == Pos() && (off' == off || (off == BLOCK && off' == 0))
    {
      off' := off;
      if |buffer| < HEADER && !eof {
        Refill(off, fs);
        off' := 0;
      }
      if |buffer| < HEADER {
        ghost var gone := buffer;
        buffer := [];
        p := Eof;
        assert gone == [] ==> At(off', fs);
        return;
      }
      ghost var here := off';
      p, off' := ReadHere(here, fs);
    }

    method ReadHere(ghost off: nat, ghost fs: seq<Fragment>) returns (p: Physical, ghost off': nat)
      requires At(off, fs) && |buffer| >= HEADER
      modifies this`buffer, this`corruptions
      ensures corruptions == old(corruptions) && fs != [] && PadSize(off) == 0 && RecordAt(off) == off
      ensures old(Present(off, fs)) ==>
        && p == Record(Code(fs[0].kind), fs[0].data) && off' == off + HEADER + |fs[0].data|
        && At(off', fs[1..]) && Pos() == old(Pos()) + HEADER + |fs[0].data|
      ensures !old(Present(off, fs)) ==> p == Eof
    {
      hide Layout, Classify;
      Classified(off, fs);
      if Present(off, fs) { Consume(off, fs, |fs[0].data|); }
      p := ParseRecord();
      off' := if p.Record? then off + HEADER + |fs[0].data| else off;
    }

    /** The part of ReadPhysicalRecord that has a whole header in its buffer, on any bytes. */
    method ParseRecord() returns (p: Physical)
      requires |buffer| >= HEADER
      modifies this`buffer, this`corruptions
      ensures var r := Classify(step, checksum, old(buffer), eof);
              p == r.physical && buffer == r.rest && corruptions == old(corruptions) + r.reports
    {
      var typ, length := buffer[6], LengthAt(buffer);
      if HEADER + length > |buffer| {
        buffer := [];
        if !eof {
          corruptions := corruptions + 1;
          return Bad;
        }
        return Eof;
      }
      if typ == 0 && length == 0 {
        buffer := [];
        return Bad;
      }
      if checksum {
        if Value(step, buffer[6..HEADER + length]) != Unmask(Decode32(buffer)) {
          buffer := [];
          corruptions := corruptions + 1;
          return Bad;
        }
      }
      p := Record(typ, buffer[HEADER..HEADER + length]);
      buffer := buffer[HEADER + length..];
    }

    /** On bytes a writer produced, parsing yields the next fragment if it is entirely in the buffer. */
    lemma Classified(off: nat, fs: seq<Fragment>)
      requires At(off, fs) && |buffer| >= HEADER
      ensures fs != [] && PadSize(off) == 0 && RecordAt(off) == off
      ensures var r := Classify(step, checksum, buffer, eof);
              && r.reports == 0
              && (Present(off, fs) ==>
                    && |buffer| >= HEADER + |fs[0].data|
                    && r.physical == Record(Code(fs[0].kind), fs[0].data)
                    && r.rest == buffer[HEADER + |fs[0].data|..])
              && (!Present(off, fs) ==> r.physical == Eof)
    {
      HeaderHere(off, fs);
    }

    /** The buffer starts with the image of the next fragment, as far as it reaches. */
    lemma HeaderHere(off: nat, fs: seq<Fragment>)
      requires At(off, fs) && |buffer| >= HEADER
      ensures fs != [] && PadSize(off) == 0 && RecordAt(off) == off
      ensures LengthAt(buffer) == |fs[0].data| && buffer[6] == Code(fs[0].kind)
      ensures |buffer| >= HEADER + |fs[0].data| ==>
        && buffer[HEADER..HEADER + |fs[0].data|] == fs[0].data
        && Unmask(Decode32(buffer)) == Value(step, buffer[6..HEADER + |fs[0].data|])
      ensures Present(off, fs) <==> HEADER + |fs[0].data| <= |buffer|
    {
      var rest := file[Pos()..];
      assert rest[..|buffer|] == buffer;
      assert |rest| > 0;
      LayoutStep(step, off, fs);
      assert Piece(step, off, fs[0]) == Image(step, fs[0]);
      Parse(step, buffer, fs[0], Layout(step, off + HEADER + |fs[0].data|, fs[1..]));
    }

    /** Removing the fragment from the buffer. */
    lemma Consume(off: nat, fs: seq<Fragment>, length: nat)
      requires At(off, fs) && |buffer| >= HEADER + length && fs != [] && |fs[0].data| == length
      requires PadSize(off) == 0 && RecordAt(off) == off
      ensures var next := off + HEADER + length;
              && next <= BLOCK && Fits(next, fs[1..])
              && file[Pos() + HEADER + length..] <= Layout(step, next, fs[1..])
              && buffer[HEADER + length..] == file[Pos() + HEADER + length..filePos]
    {
      LayoutStep(step, off, fs);
      assert |Piece(step, off, fs[0])| == HEADER + length;
      DropPrefix(file[Pos()..], Piece(step, off, fs[0]), Layout(step, off + HEADER + length, fs[1..]));
      assert file[Pos()..][HEADER + length..] == file[Pos() + HEADER + length..];
    }

    // -------------------------------------------------------------- logical records

    /** Nothing was consumed: the reader still stands before fs, now knowing that the file ends there. */
    ghost predicate AtEnd(off: nat, off': nat, fs: seq<Fragment>)
      reads this
    {
      At(off', fs) && eof && Pos() == filePos && (off' == off || (off == BLOCK && off' == 0))
    }

    /** One turn of ReadRecord's loop: a fragment, if there is one, is absorbed into the record being assembled. */
    method ReadFragment(a: Assembly, ghost off: nat, ghost fs: seq<Fragment>, ghost m: nat, ghost data: seq<Byte>)
        returns (v: Verdict, ghost off': nat)
      requires At(off, fs) && (if m == 0 then fs == [] else IsRecord(fs, m, !a.fragmented, data))
      requires !a.fragmented ==> a.scratch == []
      modifies this
      ensures file == old(file) && corruptions == old(corruptions)
      ensures !old(Present(off, fs)) ==> v == Stop
      ensures !old(Present(off, fs)) && old(Pos() == Limit()) ==> AtEnd(off, off', fs) && Limit() == old(Limit())
      ensures old(Present(off, fs)) ==>
        && m > 0 && off' == RecordAt(off) + HEADER + |fs[0].data| && At(off', fs[1..]) && Limit() == old(Limit())
        && Pos() == old(Pos()) + PadSize(off) + HEADER + |fs[0].data|
        && v == (if m == 1 then Got(a.scratch + data, 0) else More(Assembly(true, a.scratch + fs[0].data), 0))
    {
      var p;
      p, off' := ReadPhysicalRecord(off, fs);
      v := Absorb(a, p);
    }

    /** In the middle of record r: the fragments from cur on spell the rest of it. */
    ghost predicate Midway(r: Pending, start: int, limit: nat, a: Assembly, cur: Cursor)
      reads this
    {
      && At(cur.off, cur.fs) && Limit() == limit
      && (if cur.k == 0 then cur.fs == []
          else IsRecord(cur.fs, cur.k, !a.fragmented, cur.left) && a.scratch + cur.left == r.data)
      && (if a.fragmented then 0 < cur.k < r.m && start < limit
          else a.scratch == [] && cur == Cursor(r.off, r.fs, r.data, r.m) && Pos() == start)
      && SameEnd(r.off, r.fs, r.m, cur.off, cur.fs, cur.k, Pos() - start)
    }

    /** What ReadRecord promises on return, `found` telling how it ended. */
    ghost predicate Ended(r: Pending, start: int, limit: nat, found: bool, record: seq<Byte>, off': nat)
      reads this
      requires r.off <= BLOCK && Fits(r.off, r.fs) && r.m <= |r.fs|
    {
      && (found <==> r.m > 0 && start + Span(r.off, r.fs, r.m) <= limit)
      && (found ==>
            && record == r.data && off' == OffAfter(r.off, r.fs, r.m) && At(off', r.fs[r.m..])
            && Limit() == limit && Pos() == start + Span(r.off, r.fs, r.m))
      && (start == limit ==> AtEnd(r.off, off', r.fs) && Limit() == limit)
    }

    /** One turn of ReadRecord's loop. */
    method Turn(a: Assembly, ghost r: Pending, ghost start: int, ghost limit: nat, ghost cur: Cursor)
        returns (v: Verdict, ghost cur': Cursor)
      requires Midway(r, start, limit, a, cur)
      modifies this
      ensures file == old(file) && corruptions == old(corruptions)
      ensures v.More? ==> v.reports == 0 && Midway(r, start, limit, v.a, cur') && cur'.k < cur.k
      ensures v.Got? ==> v.reports == 0
      ensures !v.More? ==> Ended(r, start, limit, v.Got?, if v.Got? then v.record else [], cur'.off)
    {
      hide At, Layout, IsRecord, Span, OffAfter, Fits, AtEnd, Pos, Limit, RecordAt, PadSize;
      ghost var off';
      if cur.k > 0 {
        RecordHead(cur.fs, cur.k, !a.fragmented, cur.left);
        SpanHead(r.off, r.fs, r.m, cur.off, cur.fs, cur.k, Pos() - start);
      }
      v, off' := ReadFragment(a, cur.off, cur.fs, cur.k, cur.left);
      cur' := if v.More? then Cursor(off', cur.fs[1..], cur.left[|cur.fs[0].data|..], cur.k - 1) else cur.(off := off');
    }

    /** ReadRecord's loop, where the next m fragments are a record (m is 0 when no fragment is left). */
    method ReadPending(ghost r: Pending) returns (found: bool, record: seq<Byte>, ghost off': nat)
      requires At(r.off, r.fs) && (if r.m == 0 then r.fs == [] else IsRecord(r.fs, r.m, true, r.data))
      modifies this
      ensures file == old(file) && corruptions == old(corruptions)
      ensures Ended(r, old(Pos()), old(Limit()), found, record, off')
    {
      hide Layout, Span, OffAfter, Fits, IsRecord;
      RecordBound(r);
      var a := Assembly(false, []);
      ghost var cur := Cursor(r.off, r.fs, r.data, r.m);
      while true
        invariant Midway(r, old(Pos()), old(Limit()), a, cur) && file == old(file) && corruptions == old(corruptions)
        decreases cur.k
      {
        var v;
        v, cur := Turn(a, r, old(Pos()), old(Limit()), cur);
        match v {
          case Stop =>
            return false, [], cur.off;
          case Got(rec, reports) =>
            corruptions := corruptions + reports;
            return true, rec, cur.off;
          case More(b, reports) =>
            corruptions := corruptions + reports;
            a := b;
        }
      }
    }

    /**
     ReadRecord: the next record if its last fragment lies before the limit, and otherwise false;
     never a corruption report.
     */
    method ReadRecord(ghost off: nat, ghost rs: seq<seq<Byte>>)
        returns (found: bool, record: seq<Byte>, ghost off': nat)
      requires off <= BLOCK && At(off, SplitAll(off, rs))
      modifies this
      ensures file == old(file) && corruptions == old(corruptions)
      ensures found <==> rs != [] && old(Pos()) + |RecordBytes(step, off, rs[0], true)| <= old(Limit())
      ensures found ==>
        && record == rs[0] && off' == RecordEnd(off, rs[0], true) && At(off', SplitAll(off', rs[1..]))
        && Limit() == old(Limit()) && Pos() == old(Pos()) + |RecordBytes(step, off, rs[0], true)|
      ensures old(Pos() == Limit()) ==> !found && AtEnd(off, off', SplitAll(off, rs)) && Limit() == old(Limit())
    {
      hide At, Layout, IsRecord, Span, OffAfter, Split;
      ghost var r := NextRecord(off, rs);
      if rs != [] { NextIsRecord(step, off, rs); }
      found, record, off' := ReadPending(r);
    }

    /** UnmarkEOF: forget the end of file, and read the rest of a block that was read in part. */
    method UnmarkEOF(ghost off: nat, ghost fs: seq<Fragment>) returns (ghost off': nat)
      requires At(off, fs)
      modifies this`filePos, this`buffer, this`eof, this`eofOffset
      ensures At(off', fs) && Pos() == old(Pos()) && Limit() == |file|
      ensures off' == off || (off == 0 && off' == BLOCK)
    {
      hide Layout, Fits;
      off' := off;
      eof := false;
      if eofOffset == 0 {
        if buffer == [] && off == 0 {
          FitsAtBlock(step, fs);
          off' := BLOCK;
        }
        return;
      }
      var remaining := BLOCK - eofOffset;
      var added := if |file| - filePos < remaining then |file| - filePos else remaining;
      Joined(file, Pos(), filePos, filePos + added);
      buffer := buffer + file[filePos..filePos + added];
      filePos := filePos + added;
      if added < remaining {
        eof := true;
        eofOffset := eofOffset + added;
      } else {
        eofOffset := 0;
      }
    }
  }

  lemma FitsAtBlock(step: CrcStep, fs: seq<Fragment>)
    ensures Fits(0, fs) <==> Fits(BLOCK, fs)
    ensures Fits(0, fs) ==> Layout(step, 0, fs) == Layout(step, BLOCK, fs)
  {
    if fs != [] && Fits(0, fs) {
      LayoutStep(step, 0, fs);
      LayoutStep(step, BLOCK, fs);
    }
  }

  ghost function NextRecord(off: nat, rs: seq<seq<Byte>>): (r: Pending)
    requires off <= BLOCK
  {
    if rs == [] then Pending(off, [], 0, []) else Pending(off, SplitAll(off, rs), |Split(off, rs[0], true)|, rs[0])
  }

  lemma NextIsRecord(step: CrcStep, off: nat, rs: seq<seq<Byte>>)
    requires off <= BLOCK && rs != []
    ensures var r := NextRecord(off, rs);
            && IsRecord(r.fs, r.m, true, rs[0]) && 0 < r.m <= |r.fs|
            && r.fs[r.m..] == SplitAll(RecordEnd(off, rs[0], true), rs[1..])
            && OffAfter(off, r.fs, r.m) == RecordEnd(off, rs[0], true)
            && Span(off, r.fs, r.m) == |RecordBytes(step, off, rs[0], true)| >= HEADER
  {
    SplitFits(off, rs[0], true);
    var a := Split(off, rs[0], true);
    var b := SplitAll(EndOff(off, a), rs[1..]);
    SplitIsRecord(off, rs[0], true, b);
    FitsAppend(off, a, b);
    LayoutStep(step, off, a);
    SpanOfPrefix(step, off, a, b);
  }

  lemma {:induction false} SplitIsRecord(off: nat, data: seq<Byte>, begin: bool, tail: seq<Fragment>)
    requires off <= BLOCK
    ensures IsRecord(Split(off, data, begin) + tail, |Split(off, data, begin)|, begin, data)
    decreases |data|, RecordAt(off)
  {
    var n := Chunk(off, |data|);
    var r := Split(off, data, begin);
    if n < |data| {
      SplitIsRecord(BLOCK, data[n..], false, tail);
      var rest := Split(BLOCK, data[n..], false);
      assert r[1..] == rest && (r + tail)[1..] == rest + tail;
    }
  }

  lemma {:induction false} SpanOfPrefix(step: CrcStep, off: nat, a: seq<Fragment>, b: seq<Fragment>)
    requires off <= BLOCK && Fits(off, a) && Fits(off, a + b)
    ensures Span(off, a + b, |a|) == |Layout(step, off, a)| && OffAfter(off, a + b, |a|) == EndOff(off, a)
    decreases |a|
  {
    if a != [] {
      var next := RecordAt(off) + HEADER + |a[0].data|;
      assert (a + b)[0] == a[0] && (a + b)[1..] == a[1..] + b;
      SpanOfPrefix(step, next, a[1..], b);
      LayoutStep(step, off, a);
    }
  }

  /** A record as the next m of the fragments fs from block offset off. */
  datatype Pending = Pending(off: nat, fs: seq<Fragment>, m: nat, data: seq<Byte>)

  /** A place inside it: k fragments and `left` still to come. */
  datatype Cursor = Cursor(off: nat, fs: seq<Fragment>, left: seq<Byte>, k: nat)

  lemma RecordBound(r: Pending)
    requires r.m == 0 || IsRecord(r.fs, r.m, true, r.data)
    ensures r.m <= |r.fs|
  {
  }

  /** After `done` bytes the reader stands k fragments before the end of the m fragments of a record. */
  ghost predicate SameEnd(off: nat, fs: seq<Fragment>, m: nat, off': nat, rest: seq<Fragment>, k: nat, done: int)
  {
    && off <= BLOCK && Fits(off, fs) && m <= |fs| && off' <= BLOCK && Fits(off', rest) && k <= |rest|
    && rest[k..] == fs[m..] && OffAfter(off', rest, k) == OffAfter(off, fs, m)
    && done + Span(off', rest, k) == Span(off, fs, m)
  }

  lemma SpanHead(off: nat, fs: seq<Fragment>, m: nat, off': nat, rest: seq<Fragment>, k: nat, done: int)
    requires SameEnd(off, fs, m, off', rest, k, done) && k > 0
    ensures var n := |rest[0].data|;
            && PadSize(off') + HEADER + n <= Span(off', rest, k)
            && SameEnd(off, fs, m, RecordAt(off') + HEADER + n, rest[1..], k - 1, done + PadSize(off') + HEADER + n)
    ensures k == 1 ==>
            && done + PadSize(off') + HEADER + |rest[0].data| == Span(off, fs, m)
            && RecordAt(off') + HEADER + |rest[0].data| == OffAfter(off, fs, m) && rest[1..] == fs[m..]
  {
  }

  // ---------------------------------------------------------------- fragments of one record

  /** The bytes of the first m fragments from block offset off. */
  ghost function Span(off: nat, fs: seq<Fragment>, m: nat): (n: nat)
    requires off <= BLOCK && Fits(off, fs) && m <= |fs|
    decreases m
  {
    if m == 0 then 0
    else PadSize(off) + HEADER + |fs[0].data| + Span(RecordAt(off) + HEADER + |fs[0].data|, fs[1..], m - 1)
  }

  /** The block offset after the first m fragments. */
  ghost function OffAfter(off: nat, fs: seq<Fragment>, m: nat): (n: nat)
    requires off <= BLOCK && Fits(off, fs) && m <= |fs|
    ensures n <= BLOCK
    decreases m
  {
    if m == 0 then off else OffAfter(RecordAt(off) + HEADER + |fs[0].data|, fs[1..], m - 1)
  }

  /** The first m fragments spell `data`: first or full, then middle ones, then last. */
  ghost predicate IsRecord(fs: seq<Fragment>, m: nat, begin: bool, data: seq<Byte>)
    decreases m
  {
    && 0 < m <= |fs| && fs[0].kind == KindOf(begin, m == 1)
    && if m == 1 then fs[0].data == data
       else fs[0].data <= data && IsRecord(fs[1..], m - 1, false, data[|fs[0].data|..])
  }

  lemma RecordHead(fs: seq<Fragment>, m: nat, begin: bool, data: seq<Byte>)
    requires IsRecord(fs, m, begin, data)
    ensures |fs[0].data| <= |data| && data == fs[0].data + data[|fs[0].data|..]
    ensures m > 1 ==> IsRecord(fs[1..], m - 1, false, data[|fs[0].data|..]) && fs[1..][m-1..] == fs[m..]
    ensures m == 1 ==> data[|fs[0].data|..] == []
  {
  }
}
