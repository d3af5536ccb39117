/**
 log::Writer (rocksdb-3.9/db/log_writer.cc): appends records, fragmenting them at block boundaries.
 */
module LogWriter {
  import opened LogFormat

  /** The bytes of a log that holds the given records. */
  ghost function LogBytes(step: CrcStep, off: nat, rs: seq<seq<Byte>>): (r: seq<Byte>)
    requires off <= BLOCK
  {
    Layout(step, off, SplitAll(off, rs))
  }

  ghost function LogEnd(off: nat, rs: seq<seq<Byte>>): (r: nat)
    requires off <= BLOCK
    ensures r <= BLOCK
  {
    EndOff(off, SplitAll(off, rs))
  }

  ghost function RecordBytes(step: CrcStep, off: nat, data: seq<Byte>, begin: bool): (r: seq<Byte>)
    requires off <= BLOCK
  {
    SplitFits(off, data, begin);
    Layout(step, off, Split(off, data, begin))
  }

  ghost function RecordEnd(off: nat, data: seq<Byte>, begin: bool): (r: nat)
    requires off <= BLOCK
    ensures r <= BLOCK
  {
    SplitFits(off, data, begin);
    EndOff(off, Split(off, data, begin))
  }

  /** A log of one more record is that record's bytes and then the rest's, at either end. */
  lemma LogCons(step: CrcStep, off: nat, rs: seq<seq<Byte>>)
    requires off <= BLOCK && rs != []
    ensures LogBytes(step, off, rs) ==
            RecordBytes(step, off, rs[0], true) + LogBytes(step, RecordEnd(off, rs[0], true), rs[1..])
    ensures LogEnd(off, rs) == LogEnd(RecordEnd(off, rs[0], true), rs[1..])
  {
    SplitFits(off, rs[0], true);
    var a := Split(off, rs[0], true);
    LayoutAppend(step, off, a, SplitAll(EndOff(off, a), rs[1..]));
  }

  lemma {:induction false} LogAppend(step: CrcStep, off: nat, rs: seq<seq<Byte>>, qs: seq<seq<Byte>>)
    requires off <= BLOCK
    ensures LogBytes(step, off, rs + qs) == LogBytes(step, off, rs) + LogBytes(step, LogEnd(off, rs), qs)
    ensures LogEnd(off, rs + qs) == LogEnd(LogEnd(off, rs), qs)
    decreases |rs|
  {
    if rs == [] {
      assert rs + qs == qs;
    } else {
      var mid := RecordEnd(off, rs[0], true);
      assert (rs + qs)[0] == rs[0] && (rs + qs)[1..] == rs[1..] + qs;
      LogCons(step, off, rs + qs);
      LogCons(step, off, rs);
      LogAppend(step, mid, rs[1..], qs);
      Associate(RecordBytes(step, off, rs[0], true), LogBytes(step, mid, rs[1..]), LogBytes(step, LogEnd(off, rs), qs));
    }
  }

  lemma LogOne(step: CrcStep, off: nat, r: seq<Byte>)
    requires off <= BLOCK
    ensures LogBytes(step, off, [r]) == RecordBytes(step, off, r, true) && LogEnd(off, [r]) == RecordEnd(off, r, true)
  {
    LogCons(step, off, [r]);
    assert [r][1..] == [];
  }

  /** The next fragment of what is left of a record. */
  function NextFragment(off: nat, data: seq<Byte>, begin: bool): (f: Fragment)
    requires off <= BLOCK
  {
    var n := Chunk(off, |data|);
    Fragment(KindOf(begin, n == |data|), data[..n])
  }

  /** The bytes that follow it. */
  ghost function Remainder(step: CrcStep, off: nat, data: seq<Byte>): (r: seq<Byte>)
    requires off <= BLOCK
  {
    var n := Chunk(off, |data|);
    if n == |data| then [] else RecordBytes(step, RecordAt(off) + HEADER + n, data[n..], false)
  }

  lemma RecordStep(step: CrcStep, off: nat, data: seq<Byte>, begin: bool)
    requires off <= BLOCK
    ensures RecordBytes(step, off, data, begin) ==
      Piece(step, off, NextFragment(off, data, begin)) + Remainder(step, off, data)
    ensures var n := Chunk(off, |data|);
            var next := RecordAt(off) + HEADER + n;
            RecordEnd(off, data, begin) == if n == |data| then next else RecordEnd(next, data[n..], false)
  {
    SplitFits(off, data, begin);
    var n := Chunk(off, |data|);
    var r := Split(off, data, begin);
    assert data[..|data|] == data;
    assert r[0] == NextFragment(off, data, begin);
    if n < |data| {
      assert r[1..] == Split(BLOCK, data[n..], false);
    } else {
      assert r[1..] == [];
    }
    LayoutStep(step, off, r);
    var next := RecordAt(off) + HEADER + n;
    assert |r[0].data| == n && EndOff(off, r) == EndOff(next, r[1..]);
  }

  class Writer {
    const step: CrcStep
    var dest: seq<Byte>
    var blockOffset: nat
    ghost var records: seq<seq<Byte>>

    constructor (step: CrcStep)
      ensures Valid() && this.step == step && records == []
    {
      this.step := step;
      dest, blockOffset, records := [], 0, [];
    }

    /** The file is the log of the records added so far. */
    ghost predicate Valid()
      reads this
    {
      dest == LogBytes(step, 0, records) && blockOffset == LogEnd(0, records)
    }

    method EmitPhysicalRecord(t: Kind, data: seq<Byte>)
      requires blockOffset + HEADER + |data| <= BLOCK
      modifies this`dest, this`blockOffset
      ensures dest == old(dest) + Image(step, Fragment(t, data)) && blockOffset == old(blockOffset) + HEADER + |data|
    {
      var crc := Mask(Extend(step, Value(step, [Code(t)]), data));
      var buf := Encode32(crc) + [|data| % 256, |data| / 256, Code(t)];
      dest := dest + buf;
      dest := dest + data;
      blockOffset := blockOffset + HEADER + |data|;
    }

    /** One turn of AddRecord's loop: the trailer if needed, then one physical record. */
    method AddFragment(data: seq<Byte>, begin: bool) returns (n: nat)
      requires blockOffset <= BLOCK
      modifies this`dest, this`blockOffset
      ensures n == Chunk(old(blockOffset), |data|) && blockOffset == RecordAt(old(blockOffset)) + HEADER + n
      ensures dest == old(dest) + Piece(step, old(blockOffset), NextFragment(old(blockOffset), data, begin))
    {
      var leftover := BLOCK - blockOffset;
      if leftover < HEADER {
        if leftover > 0 {
          dest := dest + Zeros(leftover);
        }
        blockOffset := 0;
      }
      assert dest == old(dest) + Zeros(PadSize(old(blockOffset)));
      var avail := BLOCK - blockOffset - HEADER;
      n := if |data| < avail then |data| else avail;
      var kind := KindOf(begin, |data| == n);
      EmitPhysicalRecord(kind, data[..n]);
      Associate(old(dest), Zeros(PadSize(old(blockOffset))), Image(step, Fragment(kind, data[..n])));
    }

    method AddFragments(slice: seq<Byte>)
      requires blockOffset <= BLOCK
      modifies this`dest, this`blockOffset
      ensures dest == old(dest) + RecordBytes(step, old(blockOffset), slice, true)
      ensures blockOffset == RecordEnd(old(blockOffset), slice, true)
    {
      var left, begin, more := slice, true, true;
      ghost var rest := RecordBytes(step, blockOffset, slice, true);
      ghost var end := RecordEnd(blockOffset, slice, true);
      while more
        invariant blockOffset <= BLOCK && (more ==> left != [] || begin)
        invariant old(dest) + RecordBytes(step, old(blockOffset), slice, true) == dest + rest
        invariant more ==> rest == RecordBytes(step, blockOffset, left, begin)
        invariant !more ==> rest == []
        invariant end == if more then RecordEnd(blockOffset, left, begin) else blockOffset
        decreases more, |left|, RecordAt(blockOffset)
      {
        RecordStep(step, blockOffset, left, begin);
        Associate(dest, Piece(step, blockOffset, NextFragment(blockOffset, left, begin)),
          Remainder(step, blockOffset, left));
        rest := Remainder(step, blockOffset, left);
        var n := AddFragment(left, begin);
        left, begin := left[n..], false;
        more := |left| > 0;
      }
    }

    /** AddRecord: the file becomes the log with one more record. */
    method AddRecord(slice: seq<Byte>)
      requires Valid()
      modifies this
      ensures Valid() && records == old(records) + [slice] && old(dest) <= dest
    {
      AddFragments(slice);
      LogOne(step, old(blockOffset), slice);
      LogAppend(step, 0, records, [slice]);
      records := records + [slice];
    }
  }
}
