/** The log format in numbers and bytes (rocksdb-3.9/db/log_format.h, log_writer.cc, util/crc32c.h): what makes a file
    readable by other programs, and not only by the reader modelled here. */
module LogSizes {
  import opened LogFormat
  import opened LogWriter

  // ---------------------------------------------------------------- checksums

  /** A checksum starts from all ones and ends complemented; it covers the type byte and then the payload. */
  lemma ChecksumBytes(step: CrcStep, b: Byte, data: seq<Byte>)
    ensures Value(step, []) == 0 && Value(step, [b]) == 0xffff_ffff - step(0xffff_ffff, b)
    ensures Value(step, data + [b]) == 0xffff_ffff - step(0xffff_ffff - Value(step, data), b)
  {
    assert (data + [b])[..|data|] == data;
    assert [b][..0] == [];
  }

  /** Bit i of a checksum is bit i + 17 of the rotated one, or bit i - 15 if there is such a bit. */
  lemma MaskBits(low: nat, high: nat)
    requires low < 32768 && high < 131072
    ensures Mask(high * 32768 + low) == (low * 131072 + high + 2726488792) % 4294967296
  {
    assert (high * 32768 + low) / 32768 == high && (high * 32768 + low) % 32768 == low;
  }

  lemma MaskValues()
    ensures Mask(0) == 0xa282_ead8 && Mask(1) == 0xa284_ead8 && Mask(0x8000) == 0xa282_ead9
    ensures Mask(0x4000) == 0x2282_ead8 && Mask(0xffff_ffff) == 0xa282_ead7
  {
  }

  // ---------------------------------------------------------------- the header

  function TypeByte(k: Kind): int
  {
    match k case Full => 1 case First => 2 case Middle => 3 case Last => 4
  }

  /** A header has seven bytes: the masked checksum of type and payload, the length and the type, low bytes first. */
  lemma HeaderBytes(step: CrcStep, f: Fragment)
    requires |f.data| < 65536
    ensures var r, t: Byte := Image(step, f), TypeByte(f.kind);
      && |r| == 7 + |f.data| && r[7..] == f.data && r[6] == t
      && (r[4] as int) + (r[5] as int) * 256 == |f.data|
      && (r[0] as int) + (r[1] as int) * 256 + (r[2] as int) * 65536 + (r[3] as int) * 16777216 ==
           Mask(Value(step, [t] + f.data))
  {
    var r := Image(step, f);
    ImageParses(step, f);
    ExtendValue(step, [Code(f.kind)], f.data);
    var m := Mask(Value(step, [Code(f.kind)] + f.data));
    assert r[..4] == Encode32(m);
    DecodeEncode32(m);
    assert Decode32(r) == Decode32(r[..4]);
  }

  // ---------------------------------------------------------------- blocks

  /** How many physical records n bytes need from the start of a block. */
  function Pieces(n: nat): nat
  {
    if n <= 32761 then 1 else 1 + Pieces(n - 32761)
  }

  lemma RecordCut(step: CrcStep, off: nat, data: seq<Byte>, begin: bool)
    requires off == 0 || off == BLOCK
    ensures |RecordBytes(step, off, data, begin)| ==
      if |data| <= 32761 then |data| + 7 else 32768 + |RecordBytes(step, BLOCK, data[32761..], false)|
  {
    RecordStep(step, off, data, begin);
    hide RecordBytes, Image;
  }

  lemma {:induction false} RecordSize(step: CrcStep, off: nat, data: seq<Byte>, begin: bool)
    requires off == 0 || off == BLOCK
    ensures |RecordBytes(step, off, data, begin)| == |data| + 7 * Pieces(|data|)
    decreases |data|
  {
    hide RecordBytes;
    RecordCut(step, off, data, begin);
    if |data| > 32761 { RecordSize(step, BLOCK, data[32761..], false); }
  }

  /** The first record of a log takes seven bytes for each started 32761 of its own, so it is whole exactly up to that
      size; a longer one fills the first 32768 bytes and goes on at byte 32768. */
  lemma FirstRecord(step: CrcStep, data: seq<Byte>)
    ensures var log := LogBytes(step, 0, [data]);
      && |log| == |data| + 7 * Pieces(|data|) && (|log| == |data| + 7 <==> |data| <= 32761)
      && (if |data| <= 32761 then log == Image(step, Fragment(Full, data))
          else
            && log[..32768] == Image(step, Fragment(First, data[..32761]))
            && log[32774] == if |data| <= 65522 then 4 else 3)
  {
    LogOne(step, 0, data);
    RecordSize(step, 0, data, true);
    hide RecordBytes, Image;
    if |data| > 32761 { LongRecord(step, data); } else { WholeRecord(step, data); }
  }

  lemma WholeRecord(step: CrcStep, data: seq<Byte>)
    requires |data| <= 32761
    ensures RecordBytes(step, 0, data, true) == Image(step, Fragment(Full, data))
  {
    RecordStep(step, 0, data, true);
    hide RecordBytes, Image;
    assert data[..|data|] == data;
    assert Remainder(step, 0, data) == [];
  }

  lemma LongRecord(step: CrcStep, data: seq<Byte>)
    requires |data| > 32761
    ensures var log := RecordBytes(step, 0, data, true);
      && |log| > 32774 && log[..32768] == Image(step, Fragment(First, data[..32761]))
      && log[32774] == if |data| <= 65522 then 4 else 3
  {
    var rest := data[32761..];
    RecordStep(step, 0, data, true);
    RecordStep(step, BLOCK, rest, false);
    var f := NextFragment(BLOCK, rest, false);
    HeaderBytes(step, f);
    hide RecordBytes, Image;
    var log := RecordBytes(step, 0, data, true);
    assert log[32768..] == RecordBytes(step, BLOCK, rest, false);
    assert log[32768..][6] == Image(step, f)[6];
  }

  lemma BlockShift(off: nat, pad: nat, at: nat, n: nat, rest: nat, end: nat)
    requires off + pad == at || (off + pad == 32768 && at == 0)
    requires (at + n + rest) % 32768 == end % 32768
    ensures (off + (pad + n + rest)) % 32768 == end % 32768
  {
  }

  /** The block offset is the size of the file so far, modulo the block size. */
  lemma {:induction false} LayoutSize(step: CrcStep, off: nat, fs: seq<Fragment>)
    requires off <= BLOCK && Fits(off, fs)
    ensures (off + |Layout(step, off, fs)|) % 32768 == EndOff(off, fs) % 32768
    decreases |fs|
  {
    hide Layout, Piece;
    if fs != [] {
      var n := HEADER + |fs[0].data|;
      LayoutStep(step, off, fs);
      LayoutSize(step, RecordAt(off) + n, fs[1..]);
      BlockShift(off, PadSize(off), RecordAt(off), n, |Layout(step, RecordAt(off) + n, fs[1..])|, EndOff(off, fs));
    } else {
      assert Layout(step, off, fs) == [] by { LayoutEmpty(step, off); }
    }
  }

  lemma LayoutEmpty(step: CrcStep, off: nat)
    requires off <= BLOCK
    ensures Layout(step, off, []) == []
  {
  }

  /** Bytes left in the block after a file of size m: no header is split, so fewer than seven are filled with zeros. */
  function Trailer(m: nat): nat
  {
    var left := 32768 - m % 32768;
    if left < 7 then left else 0
  }

  /** Payload bytes that still fit into the block of the next record. */
  function Room(m: nat): nat
  {
    32768 - (m + Trailer(m)) % 32768 - 7
  }

  /** What a record adds to a log of m bytes: the trailer, then a fragment with as much of it as the block still takes,
      marked by whether it is all; the rest begins the next block. */
  ghost function Added(step: CrcStep, m: nat, data: seq<Byte>): seq<Byte>
  {
    var room := Room(m);
    var zeros := seq(Trailer(m), _ => 0);
    if |data| <= room then zeros + Image(step, Fragment(Full, data))
    else zeros + Image(step, Fragment(First, data[..room])) + RecordBytes(step, 32768, data[room..], false)
  }

  lemma AddedRecord(step: CrcStep, rs: seq<seq<Byte>>, data: seq<Byte>)
    ensures var log := LogBytes(step, 0, rs); LogBytes(step, 0, rs + [data]) == log + Added(step, |log|, data)
  {
    hide Layout, RecordBytes, Added;
    var log, off := LogBytes(step, 0, rs), LogEnd(0, rs);
    LogAppend(step, 0, rs, [data]);
    LogOne(step, off, data);
    LayoutSize(step, 0, SplitAll(0, rs));
    AddedAt(step, off, |log|, data);
  }

  lemma AddedAt(step: CrcStep, off: nat, m: nat, data: seq<Byte>)
    requires off <= BLOCK && off % 32768 == m % 32768
    ensures RecordBytes(step, off, data, true) == Added(step, m, data)
  {
    OffsetIs(off, m);
    ZerosAre(off, m);
    RecordStep(step, off, data, true);
    FragmentIs(off, data);
    RemainderIs(step, off, data);
    hide RecordBytes, Image, Trailer, Room, PadSize, RecordAt, Zeros, NextFragment, Remainder;
    var zeros := seq(Trailer(m), _ => 0);
    if |data| <= Room(m) {
      assert Piece(step, off, NextFragment(off, data, true)) + [] == zeros + Image(step, Fragment(Full, data));
    }
  }

  lemma RemainderIs(step: CrcStep, off: nat, data: seq<Byte>)
    requires off <= BLOCK
    ensures var room := 32768 - RecordAt(off) - 7;
      Remainder(step, off, data) == if |data| <= room then [] else RecordBytes(step, 32768, data[room..], false)
  {
    hide RecordBytes;
  }

  lemma ZerosAre(off: nat, m: nat)
    requires off <= BLOCK && PadSize(off) == Trailer(m)
    ensures Zeros(PadSize(off)) == seq(Trailer(m), _ => 0)
  {
  }

  /** The first fragment: all of the record, or as much as fits. */
  lemma FragmentIs(off: nat, data: seq<Byte>)
    requires off <= BLOCK
    ensures var room := 32768 - RecordAt(off) - 7;
      NextFragment(off, data, true) ==
        if |data| <= room then Fragment(Full, data) else Fragment(First, data[..room])
  {
    assert data[..|data|] == data;
  }

  lemma OffsetIs(off: nat, m: nat)
    requires off <= BLOCK && off % 32768 == m % 32768
    ensures PadSize(off) == Trailer(m) && Room(m) == 32768 - RecordAt(off) - 7
  {
  }
}
