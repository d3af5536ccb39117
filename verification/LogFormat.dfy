/**
 The write-ahead log format (rocksdb-3.9/db/log_format.h, util/crc32c.h, doc/log_format.txt):
 32 KB blocks of physical records, each a 7-byte header and a payload.
 */
module LogFormat {

  type Byte = b: int | 0 <= b < 256
  type Word = w: int | 0 <= w < 0x1_0000_0000

  const BLOCK: nat := 32768
  const HEADER: nat := 7

  /** kZeroType = 0 is reserved; these are 1 to 4. */
  datatype Kind = Full | First | Middle | Last

  function Code(k: Kind): (c: Byte)
  {
    match k case Full => 1 case First => 2 case Middle => 3 case Last => 4
  }

  datatype Fragment = Fragment(kind: Kind, data: seq<Byte>)

  // ---------------------------------------------------------------- checksums

  /** One table step of CRC32C; which polynomial it implements does not matter here. */
  type CrcStep = (Word, Byte) -> Word

  function Complement(w: Word): (r: Word)
  {
    0xffff_ffff - w
  }

  function Fold(step: CrcStep, w: Word, bs: seq<Byte>): (r: Word)
  {
    if bs == [] then w else step(Fold(step, w, bs[..|bs| - 1]), bs[|bs| - 1])
  }

  /** crc32c::Extend. */
  function Extend(step: CrcStep, crc: Word, bs: seq<Byte>): (r: Word)
  {
    Complement(Fold(step, Complement(crc), bs))
  }

  /** crc32c::Value. */
  function Value(step: CrcStep, bs: seq<Byte>): (r: Word)
  {
    Extend(step, 0, bs)
  }

  lemma {:induction false} FoldAppend(step: CrcStep, w: Word, a: seq<Byte>, b: seq<Byte>)
    ensures Fold(step, w, a + b) == Fold(step, Fold(step, w, a), b)
  {
    if b == [] {
      assert a + b == a;
    } else {
      assert (a + b)[..|a + b| - 1] == a + b[..|b| - 1];
      FoldAppend(step, w, a, b[..|b| - 1]);
    }
  }

  /** Extending the checksum of a by b is the checksum of a followed by b. */
  lemma ExtendValue(step: CrcStep, a: seq<Byte>, b: seq<Byte>)
    ensures Extend(step, Value(step, a), b) == Value(step, a + b)
  {
    FoldAppend(step, Complement(0), a, b);
  }

  const MASK_DELTA: Word := 0xa282_ead8

  /** crc32c::Mask: rotate right by 15 bits and add a constant. */
  function Mask(crc: Word): (r: Word)
  {
    (crc / 0x8000 + crc % 0x8000 * 0x2_0000 + MASK_DELTA) % 0x1_0000_0000
  }

  /** crc32c::Unmask. */
  function Unmask(masked: Word): (r: Word)
  {
    var rot := (masked - MASK_DELTA) % 0x1_0000_0000;
    rot / 0x2_0000 + rot % 0x2_0000 * 0x8000
  }

  lemma UnmaskMask(crc: Word)
    ensures Unmask(Mask(crc)) == crc
  {
    var q, r := crc / 0x8000, crc % 0x8000;
    var rot := q + r * 0x2_0000;
    assert (Mask(crc) - MASK_DELTA) % 0x1_0000_0000 == rot;
    assert rot / 0x2_0000 == r && rot % 0x2_0000 == q;
  }

  // ---------------------------------------------------------------- physical records

  /** EncodeFixed32: little endian. */
  function Encode32(w: Word): (r: seq<Byte>)
    ensures |r| == 4
  {
    [w % 256, w / 0x100 % 256, w / 0x1_0000 % 256, w / 0x100_0000]
  }

  function Decode32(bs: seq<Byte>): (w: Word)
    requires |bs| >= 4
  {
    var b0: int, b1: int, b2: int, b3: int := bs[0], bs[1], bs[2], bs[3];
    b0 + b1 * 0x100 + b2 * 0x1_0000 + b3 * 0x100_0000
  }

  lemma DecodeEncode32(w: Word)
    ensures Decode32(Encode32(w)) == w
  {
  }

  /** The bytes of one physical record. */
  function Image(step: CrcStep, f: Fragment): (r: seq<Byte>)
    requires |f.data| < 0x1_0000
    ensures |r| == HEADER + |f.data|
  {
    var crc := Mask(Extend(step, Value(step, [Code(f.kind)]), f.data));
    Encode32(crc) + [|f.data| % 256, |f.data| / 256, Code(f.kind)] + f.data
  }

  /** The length field of a header. */
  function LengthAt(bs: seq<Byte>): (n: nat)
    requires |bs| >= HEADER
  {
    var a: int, b: int := bs[4], bs[5];
    a + b * 256
  }

  /** A reader recovers kind, length and payload from an image, and its checksum agrees. */
  lemma ImageParses(step: CrcStep, f: Fragment)
    requires |f.data| < 0x1_0000
    ensures var r := Image(step, f);
            && LengthAt(r) == |f.data| && r[6] == Code(f.kind) && r[HEADER..] == f.data
            && Unmask(Decode32(r)) == Value(step, r[6..])
  {
    var r := Image(step, f);
    var crc := Extend(step, Value(step, [Code(f.kind)]), f.data);
    assert r[..4] == Encode32(Mask(crc));
    assert Decode32(r) == Decode32(r[..4]);
    DecodeEncode32(Mask(crc));
    UnmaskMask(crc);
    assert r[6..] == [Code(f.kind)] + f.data;
    ExtendValue(step, [Code(f.kind)], f.data);
  }

  // ---------------------------------------------------------------- layout in blocks

  function Zeros(n: nat): (r: seq<Byte>)
    ensures |r| == n
  {
    seq(n, _ => 0)
  }

  /** Bytes of trailer before the next record when `off` bytes of the block are used. */
  function PadSize(off: nat): (n: nat)
    requires off <= BLOCK
  {
    if BLOCK - off < HEADER then BLOCK - off else 0
  }

  /** Where in its block the next record starts. */
  function RecordAt(off: nat): (n: nat)
    requires off <= BLOCK
    ensures n + HEADER <= BLOCK
  {
    if BLOCK - off < HEADER then 0 else off
  }

  /** Every fragment, laid out from block offset off, stays within its block. */
  ghost predicate Fits(off: nat, fs: seq<Fragment>)
    requires off <= BLOCK
    decreases |fs|
  {
    fs == [] || (
      && RecordAt(off) + HEADER + |fs[0].data| <= BLOCK
      && Fits(RecordAt(off) + HEADER + |fs[0].data|, fs[1..]))
  }

  /** The bytes of the fragments from block offset off. */
  ghost function Layout(step: CrcStep, off: nat, fs: seq<Fragment>): (r: seq<Byte>)
    requires off <= BLOCK && Fits(off, fs)
    decreases |fs|
  {
    if fs == [] then []
    else Piece(step, off, fs[0]) + Layout(step, RecordAt(off) + HEADER + |fs[0].data|, fs[1..])
  }

  /** The block offset after the fragments. */
  ghost function EndOff(off: nat, fs: seq<Fragment>): (r: nat)
    requires off <= BLOCK && Fits(off, fs)
    ensures r <= BLOCK
    decreases |fs|
  {
    if fs == [] then off else EndOff(RecordAt(off) + HEADER + |fs[0].data|, fs[1..])
  }

  function Piece(step: CrcStep, off: nat, f: Fragment): (r: seq<Byte>)
    requires off <= BLOCK && RecordAt(off) + HEADER + |f.data| <= BLOCK
    ensures |r| == PadSize(off) + HEADER + |f.data|
  {
    Zeros(PadSize(off)) + Image(step, f)
  }

  lemma LayoutStep(step: CrcStep, off: nat, fs: seq<Fragment>)
    requires off <= BLOCK && Fits(off, fs) && fs != []
    ensures Layout(step, off, fs) ==
            Piece(step, off, fs[0]) + Layout(step, RecordAt(off) + HEADER + |fs[0].data|, fs[1..])
  {
  }

  lemma Associate(a: seq<Byte>, b: seq<Byte>, c: seq<Byte>)
    ensures a + (b + c) == (a + b) + c
  {
  }

  lemma {:induction false} FitsAppend(off: nat, a: seq<Fragment>, b: seq<Fragment>)
    requires off <= BLOCK && Fits(off, a) && Fits(EndOff(off, a), b)
    ensures Fits(off, a + b) && EndOff(off, a + b) == EndOff(EndOff(off, a), b)
    decreases |a|
  {
    if a == [] {
      assert a + b == b;
    } else {
      assert (a + b)[0] == a[0] && (a + b)[1..] == a[1..] + b;
      FitsAppend(RecordAt(off) + HEADER + |a[0].data|, a[1..], b);
    }
  }

  lemma {:induction false} LayoutAppend(step: CrcStep, off: nat, a: seq<Fragment>, b: seq<Fragment>)
    requires off <= BLOCK && Fits(off, a) && Fits(EndOff(off, a), b)
    ensures Fits(off, a + b) && EndOff(off, a + b) == EndOff(EndOff(off, a), b)
    ensures Layout(step, off, a + b) == Layout(step, off, a) + Layout(step, EndOff(off, a), b)
    decreases |a|
  {
    hide Image, PadSize;
    FitsAppend(off, a, b);
    if a == [] {
      assert a + b == b;
    } else {
      var next := RecordAt(off) + HEADER + |a[0].data|;
      assert (a + b)[0] == a[0] && (a + b)[1..] == a[1..] + b;
      LayoutAppend(step, next, a[1..], b);
      Associate(Piece(step, off, a[0]), Layout(step, next, a[1..]), Layout(step, EndOff(off, a), b));
    }
  }

  // ---------------------------------------------------------------- fragmenting records

  function KindOf(begin: bool, end: bool): (k: Kind)
  {
    if begin && end then Full else if begin then First else if end then Last else Middle
  }

  /** How much of `left` bytes goes into the record started at block offset off. */
  function Chunk(off: nat, left: nat): (n: nat)
    requires off <= BLOCK
    ensures n <= left && RecordAt(off) + HEADER + n <= BLOCK
    ensures n < left ==> RecordAt(off) + HEADER + n == BLOCK
  {
    var avail := BLOCK - RecordAt(off) - HEADER;
    if left < avail then left else avail
  }

  /** The fragments of one record (or of what is left of it) from block offset off. */
  ghost function Split(off: nat, data: seq<Byte>, begin: bool): (r: seq<Fragment>)
    requires off <= BLOCK
    ensures |r| > 0
    decreases |data|, RecordAt(off)
  {
    var n := Chunk(off, |data|);
    if n == |data| then [Fragment(KindOf(begin, true), data)]
    else [Fragment(KindOf(begin, false), data[..n])] + Split(BLOCK, data[n..], false)
  }

  lemma {:induction false} SplitFits(off: nat, data: seq<Byte>, begin: bool)
    requires off <= BLOCK
    ensures Fits(off, Split(off, data, begin))
    decreases |data|, RecordAt(off)
  {
    var n := Chunk(off, |data|);
    if n < |data| {
      SplitFits(BLOCK, data[n..], false);
      var r := Split(off, data, begin);
      assert r[1..] == Split(BLOCK, data[n..], false);
    } else {
      assert Split(off, data, begin)[1..] == [];
    }
  }

  /** The fragments of a list of records. */
  ghost function SplitAll(off: nat, rs: seq<seq<Byte>>): (r: seq<Fragment>)
    requires off <= BLOCK
    ensures Fits(off, r)
    decreases |rs|
  {
    if rs == [] then []
    else
      SplitFits(off, rs[0], true);
      var a := Split(off, rs[0], true);
      var b := SplitAll(EndOff(off, a), rs[1..]);
      FitsAppend(off, a, b);
      a + b
  }
}
