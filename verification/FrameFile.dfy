/**
 Writing a frame in the trace file format of the GDB manual: the growing buffer of gtp_realloc and
 the gtp_frame2file functions that append to it, and a reader of the format.
 */
module FrameFile {
  import opened Options
  import opened PageRing

  const BLOCK_MAX := 65535
  const CPU_ID_VAR := 2      // GTP_VAR_CPU_ID
  const R_BYTE: Octet := 82
  const M_BYTE: Octet := 77
  const V_BYTE: Octet := 86

  // ----- the format -----

  datatype Block = RBlock(bin: seq<Octet>) | MBlock(addr: nat, data: seq<Octet>) | VBlock(num: nat, val: nat)

  function Pow256(n: nat): (r: nat)
    ensures r > 0
  {
    if n == 0 then 1 else 256 * Pow256(n - 1)
  }

  const TWO32 := 0x1_0000_0000
  const TWO64 := 0x1_0000_0000_0000_0000

  lemma Powers()
    ensures Pow256(2) == 65536 && Pow256(4) == TWO32 && Pow256(8) == TWO64
  {
    assert Pow256(1) == 256;
    assert Pow256(3) == 256 * Pow256(2);
    assert Pow256(5) == 256 * Pow256(4);
    assert Pow256(6) == 256 * Pow256(5);
    assert Pow256(7) == 256 * Pow256(6);
  }

  /** The n low bytes of a number, least significant first. */
  function LittleEndian(v: nat, n: nat): (s: seq<Octet>)
    ensures |s| == n
  {
    if n == 0 then [] else [v % 256] + LittleEndian(v / 256, n - 1)
  }

  function Value(s: seq<Octet>): nat {
    if s == [] then 0 else s[0] + 256 * Value(s[1..])
  }

  lemma {:induction false} ValueOfBytes(v: nat, n: nat)
    requires v < Pow256(n)
    ensures Value(LittleEndian(v, n)) == v
    decreases n
  {
    if n > 0 {
      ValueOfBytes(v / 256, n - 1);
      assert LittleEndian(v, n)[1..] == LittleEndian(v / 256, n - 1);
    }
  }

  lemma {:induction false} ValueBound(v: nat, n: nat)
    ensures Value(LittleEndian(v, n)) < Pow256(n)
    decreases n
  {
    if n > 0 {
      ValueBound(v / 256, n - 1);
      assert LittleEndian(v, n)[1..] == LittleEndian(v / 256, n - 1);
    }
  }

  /** n bytes hold a number exactly when it is below 256^n: a frame's size, for one, must fit 4. */
  lemma ReadsBack(v: nat, n: nat)
    ensures Value(LittleEndian(v, n)) == v <==> v < Pow256(n)
  {
    ValueBound(v, n);
    if v < Pow256(n) {
      ValueOfBytes(v, n);
    }
  }

  function EncodeBlock(b: Block): seq<Octet> {
    match b
    case RBlock(bin) => [R_BYTE] + bin
    case MBlock(addr, data) => [M_BYTE] + LittleEndian(addr, 8) + LittleEndian(|data|, 2) + data
    case VBlock(num, val) => [V_BYTE] + LittleEndian(num, 4) + LittleEndian(val, 8)
  }

  function EncodeBlocks(bs: seq<Block>): seq<Octet> {
    if bs == [] then [] else EncodeBlock(bs[0]) + EncodeBlocks(bs[1..])
  }

  function EncodeFrame(num: nat, bs: seq<Block>): seq<Octet> {
    var body := EncodeBlocks(bs);
    LittleEndian(num, 2) + LittleEndian(|body|, 4) + body
  }

  /** A reader of one block; the register block has a fixed size. */
  function DecodeBlock(s: seq<Octet>, regSize: nat): Option<(Block, seq<Octet>)> {
    if s == [] then None
    else if s[0] == R_BYTE then
      if |s| < 1 + regSize then None else Some((RBlock(s[1..1 + regSize]), s[1 + regSize..]))
    else if s[0] == M_BYTE then
      if |s| < 11 then None
      else
        var n := Value(s[9..11]);
        if |s| < 11 + n then None else Some((MBlock(Value(s[1..9]), s[11..11 + n]), s[11 + n..]))
    else if s[0] == V_BYTE then
      if |s| < 13 then None else Some((VBlock(Value(s[1..5]), Value(s[5..13])), s[13..]))
    else None
  }

  function DecodeBlocks(s: seq<Octet>, regSize: nat): Option<seq<Block>>
    decreases |s|
  {
    if s == [] then Some([])
    else
      match DecodeBlock(s, regSize)
      case None => None
      case Some((b, rest)) =>
        if |rest| >= |s| then None
        else
          match DecodeBlocks(rest, regSize)
          case None => None
          case Some(bs) => Some([b] + bs)
  }

  /** A frame: the tracepoint's number, the size of the blocks, the blocks; and what follows. */
  function DecodeFrame(s: seq<Octet>, regSize: nat): Option<(nat, seq<Block>, seq<Octet>)> {
    if |s| < 6 then None
    else
      var n := Value(s[2..6]);
      if |s| < 6 + n then None
      else
        match DecodeBlocks(s[6..6 + n], regSize)
        case None => None
        case Some(bs) => Some((Value(s[..2]), bs, s[6 + n..]))
  }

  predicate Fits(b: Block, regSize: nat) {
    match b
    case RBlock(bin) => |bin| == regSize
    case MBlock(addr, data) => addr < Pow256(8) && |data| < Pow256(2)
    case VBlock(num, val) => num < Pow256(4) && val < Pow256(8)
  }

  lemma BlockRoundTrip(b: Block, tail: seq<Octet>, regSize: nat)
    requires Fits(b, regSize)
    ensures EncodeBlock(b) != []
    ensures DecodeBlock(EncodeBlock(b) + tail, regSize) == Some((b, tail))
  {
    var s := EncodeBlock(b) + tail;
    match b
    case RBlock(bin) =>
      assert s[1..1 + regSize] == bin && s[1 + regSize..] == tail;
    case MBlock(addr, data) =>
      ValueOfBytes(addr, 8);
      ValueOfBytes(|data|, 2);
      assert s[1..9] == LittleEndian(addr, 8) && s[9..11] == LittleEndian(|data|, 2);
      assert s[11..11 + |data|] == data && s[11 + |data|..] == tail;
    case VBlock(num, val) =>
      ValueOfBytes(num, 4);
      ValueOfBytes(val, 8);
      assert s[1..5] == LittleEndian(num, 4) && s[5..13] == LittleEndian(val, 8) && s[13..] == tail;
  }

  /** Reading the blocks back gives the blocks. */
  lemma {:induction false} BlocksRoundTrip(bs: seq<Block>, regSize: nat)
    requires forall i :: 0 <= i < |bs| ==> Fits(bs[i], regSize)
    ensures DecodeBlocks(EncodeBlocks(bs), regSize) == Some(bs)
    decreases |bs|
  {
    if bs != [] {
      BlockRoundTrip(bs[0], EncodeBlocks(bs[1..]), regSize);
      BlocksRoundTrip(bs[1..], regSize);
      assert bs == [bs[0]] + bs[1..];
    }
  }

  /** Reading a frame back gives the number, the blocks and what follows, if the blocks' total size
      fits the 32 bits the frame has for it. */
  lemma FrameRoundTrip(num: nat, bs: seq<Block>, tail: seq<Octet>, regSize: nat)
    requires num < Pow256(2) && |EncodeBlocks(bs)| < Pow256(4)
    requires forall i :: 0 <= i < |bs| ==> Fits(bs[i], regSize)
    ensures DecodeFrame(EncodeFrame(num, bs) + tail, regSize) == Some((num, bs, tail))
  {
    var body := EncodeBlocks(bs);
    var s := EncodeFrame(num, bs) + tail;
    ValueOfBytes(num, 2);
    ValueOfBytes(|body|, 4);
    assert s[..2] == LittleEndian(num, 2) && s[2..6] == LittleEndian(|body|, 4);
    assert s[6..6 + |body|] == body && s[6 + |body|..] == tail;
    BlocksRoundTrip(bs, regSize);
  }

  // ----- the records of a frame as blocks -----

  /** A memory record becomes blocks of at most 65535 bytes. */
  function SplitMem(addr: nat, data: seq<Octet>): (bs: seq<Block>)
    ensures forall i :: 0 <= i < |bs| ==> bs[i].MBlock? && 0 < |bs[i].data| <= BLOCK_MAX && bs[i].addr < Pow256(8)
    decreases |data|
  {
    if data == [] then []
    else
      var n := if |data| > BLOCK_MAX then BLOCK_MAX else |data|;
      [MBlock(addr % Pow256(8), data[..n])] + SplitMem(addr + n, data[n..])
  }

  function JoinMem(bs: seq<Block>): seq<Octet>
    requires forall i :: 0 <= i < |bs| ==> bs[i].MBlock?
  {
    if bs == [] then [] else bs[0].data + JoinMem(bs[1..])
  }

  /** The blocks of a record hold its memory, piece after piece. */
  lemma {:induction false} SplitJoins(addr: nat, data: seq<Octet>)
    ensures JoinMem(SplitMem(addr, data)) == data
    decreases |data|
  {
    if data != [] {
      var n := if |data| > BLOCK_MAX then BLOCK_MAX else |data|;
      SplitJoins(addr + n, data[n..]);
      SplitFirst(addr, data, n);
      assert data == data[..n] + data[n..];
    }
  }

  lemma SplitFirst(addr: nat, data: seq<Octet>, n: nat)
    requires data != [] && n == if |data| > BLOCK_MAX then BLOCK_MAX else |data|
    ensures var bs := SplitMem(addr, data);
            bs != [] && bs[0] == MBlock(addr % Pow256(8), data[..n]) && bs[1..] == SplitMem(addr + n, data[n..])
  {
  }

  /** Each piece has the address after the pieces before it. */
  lemma {:induction false} SplitAddresses(addr: nat, data: seq<Octet>, i: nat)
    requires i < |SplitMem(addr, data)|
    ensures SplitMem(addr, data)[i].addr == (addr + |JoinMem(SplitMem(addr, data)[..i])|) % Pow256(8)
    decreases |data|
  {
    hide Pow256, SplitMem;
    if data == [] {
      NothingToSplit(addr);
      assert false;
    }
    var n := if |data| > BLOCK_MAX then BLOCK_MAX else |data|;
    SplitFirst(addr, data, n);
    if i > 0 {
      var bs, rest := SplitMem(addr, data), SplitMem(addr + n, data[n..]);
      SplitAddresses(addr + n, data[n..], i - 1);
      assert bs[i] == rest[i - 1] && bs[..i] == [bs[0]] + rest[..i - 1];
      JoinFirst(bs[0], rest[..i - 1]);
    }
  }

  lemma NothingToSplit(addr: nat)
    ensures SplitMem(addr, []) == []
  {
  }

  lemma JoinFirst(b: Block, bs: seq<Block>)
    requires b.MBlock? && forall i :: 0 <= i < |bs| ==> bs[i].MBlock?
    ensures JoinMem([b] + bs) == b.data + JoinMem(bs)
  {
    assert ([b] + bs)[1..] == bs;
  }

  /** gtp_regs2bin, which depends on the architecture: always `size` bytes. */
  datatype RegFormat = RegFormat(size: nat, bin: seq<Octet> -> seq<Octet>) {
    ghost predicate Valid() {
      forall regs :: |bin(regs)| == size
    }
  }

  function BlocksOf(e: Entry, format: RegFormat): seq<Block> {
    match e
    case Reg(regs) => [RBlock(format.bin(regs))]
    case Mem(addr, data) => SplitMem(addr, data)
    case Var(num, val) => [VBlock(num % Pow256(4), val % Pow256(8))]
    case _ => []
  }

  function FrameBlocks(records: seq<Entry>, format: RegFormat): seq<Block> {
    if records == [] then [] else BlocksOf(records[0], format) + FrameBlocks(records[1..], format)
  }

  lemma {:induction false} FrameBlocksFit(records: seq<Entry>, format: RegFormat)
    requires format.Valid()
    ensures forall i :: 0 <= i < |FrameBlocks(records, format)| ==> Fits(FrameBlocks(records, format)[i], format.size)
  {
    if records != [] {
      BlocksFit(records[0], format);
      FrameBlocksFit(records[1..], format);
    }
  }

  lemma BlocksFit(e: Entry, format: RegFormat)
    requires format.Valid()
    ensures forall i :: 0 <= i < |BlocksOf(e, format)| ==> Fits(BlocksOf(e, format)[i], format.size)
  {
    assert Pow256(2) == 65536 by {
      assert Pow256(1) == 256 && Pow256(0) == 1;
    }
  }

  /** The blocks of an exported frame: the CPU's number, then the records. */
  function FileBlocks(cpu: nat, records: seq<Entry>, format: RegFormat): seq<Block> {
    [VBlock(CPU_ID_VAR % Pow256(4), cpu % Pow256(8))] + FrameBlocks(records, format)
  }

  /** What a reader of the file finds in an exported frame: the tracepoint's number in 16 bits, the
      CPU's number, then the records as they were, memory in pieces. */
  lemma ExportRoundTrip(num: nat, cpu: nat, records: seq<Entry>, format: RegFormat, tail: seq<Octet>)
    requires format.Valid()
    requires |EncodeBlocks(FileBlocks(cpu, records, format))| < Pow256(4)
    ensures var bs := FileBlocks(cpu, records, format);
            DecodeFrame(EncodeFrame(num % Pow256(2), bs) + tail, format.size) == Some((num % Pow256(2), bs, tail))
  {
    var bs := [VBlock(CPU_ID_VAR % Pow256(4), cpu % Pow256(8))] + FrameBlocks(records, format);
    FrameBlocksFit(records, format);
    forall i | 0 <= i < |bs|
      ensures Fits(bs[i], format.size)
    {
      assert i > 0 ==> bs[i] == FrameBlocks(records, format)[i - 1];
    }
    FrameRoundTrip(num % Pow256(2), bs, tail, format.size);
  }

  lemma {:induction false} EncodeConcat(a: seq<Block>, b: seq<Block>)
    ensures EncodeBlocks(a + b) == EncodeBlocks(a) + EncodeBlocks(b)
  {
    if a == [] {
      assert a + b == b;
    } else {
      assert (a + b)[1..] == a[1..] + b;
      EncodeConcat(a[1..], b);
    }
  }

  lemma EncodeOne(b: Block)
    ensures EncodeBlocks([b]) == EncodeBlock(b)
  {
    assert EncodeBlocks([b]) == EncodeBlock(b) + EncodeBlocks([b][1..]);
  }

  // ----- the growing buffer -----

  /** struct gtp_realloc_s; the real size is the length of the array. */
  class Output {
    var buf: array<Octet>
    var size: nat

    constructor (room: nat)
      ensures Valid() && Contents() == [] && fresh(buf)
    {
      buf := new Octet[room](_ => 0);
      size := 0;
    }

    ghost predicate Valid()
      reads this
    {
      size <= buf.Length
    }

    ghost function Contents(): seq<Octet>
      requires Valid()
      reads this, buf
    {
      buf[..size]
    }

    /** gtp_realloc: room for n more bytes after what was written, which moves when the array is
        too short. */
    method Extend(n: nat, isEnd: bool) returns (at: nat)
      requires Valid()
      modifies this
      ensures Valid() && at == old(size) && size == old(size) + n
      ensures buf[..at] == old(Contents())
      ensures buf == old(buf) || fresh(buf)
      ensures isEnd ==> size == buf.Length
    {
      if buf.Length < size + n || (isEnd && buf.Length != size + n) {
        var realSize := size + n;
        if !isEnd {
          realSize := realSize + 100;
        }
        var tmp := new Octet[realSize](_ => 0);
        forall i | 0 <= i < size {
          tmp[i] := buf[i];
        }
        assert tmp[..size] == buf[..size];
        buf := tmp;
      }
      at := size;
      size := size + n;
    }

    /** The memcpy calls that fill the room. */
    method Put(at: nat, bytes: seq<Octet>)
      requires Valid() && at + |bytes| <= size
      modifies buf
      ensures Contents() == old(Contents()[..at]) + bytes + old(Contents()[at + |bytes|..])
    {
      forall i | 0 <= i < |bytes| {
        buf[at + i] := bytes[i];
      }
    }

    /** Room and its bytes in one. */
    method Append(bytes: seq<Octet>)
      requires Valid()
      modifies this, buf
      ensures Valid() && Contents() == old(Contents()) + bytes
      ensures buf == old(buf) || fresh(buf)
    {
      var at := Extend(|bytes|, false);
      ghost var before := buf[..at];
      Put(at, bytes);
      assert Contents()[..at] == before;
    }

    /** gtp_frame2file_r. */
    method WriteR(regs: seq<Octet>, format: RegFormat, dataSize: nat) returns (dataSize': nat)
      requires Valid() && format.Valid()
      modifies this, buf
      ensures Valid() && (buf == old(buf) || fresh(buf))
      ensures Contents() == old(Contents()) + EncodeBlock(RBlock(format.bin(regs)))
      ensures dataSize' == dataSize + |EncodeBlock(RBlock(format.bin(regs)))|
    {
      Append([R_BYTE] + format.bin(regs));
      dataSize' := dataSize + 1 + format.size;
    }

    /** gtp_frame2file_v. */
    method WriteV(num: nat, val: int, dataSize: nat) returns (dataSize': nat)
      requires Valid()
      modifies this, buf
      ensures Valid() && (buf == old(buf) || fresh(buf))
      ensures Contents() == old(Contents()) + EncodeBlock(VBlock(num % Pow256(4), val % Pow256(8)))
      ensures dataSize' == dataSize + |EncodeBlock(VBlock(num % Pow256(4), val % Pow256(8)))|
    {
      Append([V_BYTE] + LittleEndian(num % Pow256(4), 4) + LittleEndian(val % Pow256(8), 8));
      dataSize' := dataSize + 13;
    }

    /** gtp_frame2file_m: the memory in blocks of at most 65535 bytes. */
    method WriteM(addr: nat, data: seq<Octet>, dataSize: nat) returns (dataSize': nat)
      requires Valid()
      modifies this, buf
      ensures Valid() && (buf == old(buf) || fresh(buf))
      ensures Contents() == old(Contents()) + EncodeBlocks(SplitMem(addr, data))
      ensures dataSize' == dataSize + |EncodeBlocks(SplitMem(addr, data))|
    {
      hide SplitMem, EncodeBlocks, EncodeBlock, LittleEndian, Pow256;
      var at, left := addr, |data|;
      dataSize' := dataSize;
      ghost var done: seq<Octet> := [];
      NoPieceYet(addr, data);
      while left > 0
        invariant 0 <= left <= |data| && at == addr + |data| - left
        invariant Valid() && (buf == old(buf) || fresh(buf))
        invariant Contents() == old(Contents()) + done && dataSize' == dataSize + |done|
        invariant EncodeBlocks(SplitMem(addr, data)) == done + EncodeBlocks(SplitMem(at, data[|data| - left..]))
      {
        var from := |data| - left;
        var blocklen := if left > BLOCK_MAX then BLOCK_MAX else left;
        var piece := data[from..from + blocklen];
        NextPiece(at, data, from, blocklen);
        Append([M_BYTE] + LittleEndian(at % Pow256(8), 8) + LittleEndian(blocklen, 2) + piece);
        done := done + EncodeBlock(MBlock(at % Pow256(8), piece));
        at, left := at + blocklen, left - blocklen;
        dataSize' := dataSize' + 1 + 8 + 2 + blocklen;
      }
      AllPieces(at, data, done);
    }

    /** The case of gtp_frame2file for one record. */
    method WriteRecord(e: Entry, format: RegFormat, dataSize: nat) returns (dataSize': nat)
      requires Valid() && format.Valid()
      modifies this, buf
      ensures Valid() && (buf == old(buf) || fresh(buf))
      ensures Contents() == old(Contents()) + EncodeBlocks(BlocksOf(e, format))
      ensures dataSize' == dataSize + |EncodeBlocks(BlocksOf(e, format))|
    {
      hide EncodeBlocks, EncodeBlock, LittleEndian, Pow256, BlocksOf, SplitMem;
      OneRecord(e, format);
      dataSize' := dataSize;
      match e {
        case Reg(regs) => dataSize' := WriteR(regs, format, dataSize);
        case Mem(addr, data) => dataSize' := WriteM(addr, data, dataSize);
        case Var(n, val) => dataSize' := WriteV(n, val, dataSize);
        case _ =>
      }
      assert EncodeBlocks(BlocksOf(e, format)) == [] ==> Contents() + [] == Contents();
    }

    /** The beginning of gtp_frame2file: the head, room for the size of the blocks, and the CPU's
        number as a variable. */
    method BeginFrame(num: nat, cpu: nat, format: RegFormat) returns (dataSize: nat, ghost gap: seq<Octet>)
      requires Valid()
      modifies this, buf
      ensures Valid() && (buf == old(buf) || fresh(buf)) && |gap| == 4
      ensures Contents()
         == old(Contents()) + LittleEndian(num % Pow256(2), 2) + gap + EncodeBlocks(FileBlocks(cpu, [], format))
      ensures Contents()
         == old(Contents()) + LittleEndian(num % 65536, 2) + gap + ([86, 2, 0, 0, 0] + LittleEndian(cpu % TWO64, 8))
      ensures dataSize == |EncodeBlocks(FileBlocks(cpu, [], format))|
    {
      hide EncodeBlocks, EncodeBlock, LittleEndian, Pow256;
      Powers();
      CpuBytes(cpu);
      Append(LittleEndian(num % Pow256(2), 2));
      var at := Extend(4, false);
      gap := Contents()[at..];
      ghost var prefix := Contents();
      assert prefix == old(Contents()) + LittleEndian(num % Pow256(2), 2) + gap;
      dataSize := WriteV(CPU_ID_VAR, cpu, 0);
      EncodeOne(VBlock(CPU_ID_VAR % Pow256(4), cpu % Pow256(8)));
      assert FileBlocks(cpu, [], format) == [VBlock(CPU_ID_VAR % Pow256(4), cpu % Pow256(8))];
    }

    /** The end of gtp_frame2file: the size of the blocks is stored where room was left for it,
        wherever the buffer is by now. */
    method EndFrame(dataSize: nat, ghost before: seq<Octet>, ghost num: nat, ghost gap: seq<Octet>, ghost bs: seq<Block>)
      requires Valid() && |gap| == 4 && dataSize == |EncodeBlocks(bs)|
      requires Contents() == before + LittleEndian(num, 2) + gap + EncodeBlocks(bs)
      modifies buf
      ensures Contents() == before + EncodeFrame(num, bs)
    {
      hide EncodeBlocks, EncodeBlock, LittleEndian, Pow256;
      SizePatched(before, LittleEndian(num, 2), gap, EncodeBlocks(bs), Contents(), LittleEndian(dataSize, 4));
      Put(size - dataSize - 4, LittleEndian(dataSize, 4));
      FrameMade(num, bs);
    }
  }

  lemma Joined(prefix: seq<Octet>, body: seq<Octet>, more: seq<Octet>)
    ensures prefix + body + more == prefix + (body + more)
    ensures more == [] ==> body + more == body
  {
  }

  /** The bytes of the CPU's number: a V, the variable 2, the value. */
  lemma CpuBytes(cpu: nat)
    ensures EncodeBlock(VBlock(CPU_ID_VAR % Pow256(4), cpu % Pow256(8))) == [86, 2, 0, 0, 0] + LittleEndian(cpu % TWO64, 8)
  {
    hide Pow256;
    Powers();
    assert LittleEndian(0, 3) == [0, 0, 0] by {
      assert LittleEndian(0, 1) == [0] + LittleEndian(0, 0);
      assert LittleEndian(0, 2) == [0] + LittleEndian(0, 1);
      assert LittleEndian(0, 3) == [0] + LittleEndian(0, 2);
    }
    assert LittleEndian(2, 4) == [2] + LittleEndian(0, 3);
  }

  lemma FrameMade(num: nat, bs: seq<Block>)
    ensures EncodeFrame(num, bs) == LittleEndian(num, 2) + LittleEndian(|EncodeBlocks(bs)|, 4) + EncodeBlocks(bs)
  {
  }

  /** The encoding of one record, case by case. */
  lemma {:induction false} OneRecord(e: Entry, format: RegFormat)
    ensures e.Reg? ==> EncodeBlocks(BlocksOf(e, format)) == EncodeBlock(RBlock(format.bin(e.regs)))
    ensures e.Mem? ==> EncodeBlocks(BlocksOf(e, format)) == EncodeBlocks(SplitMem(e.addr, e.data))
    ensures e.Var? ==>
      EncodeBlocks(BlocksOf(e, format)) == EncodeBlock(VBlock(e.num % Pow256(4), e.val % Pow256(8)))
    ensures !e.Reg? && !e.Mem? && !e.Var? ==> EncodeBlocks(BlocksOf(e, format)) == []
  {
    if e.Reg? {
      EncodeOne(RBlock(format.bin(e.regs)));
    } else if e.Var? {
      EncodeOne(VBlock(e.num % Pow256(4), e.val % Pow256(8)));
    }
  }

  /** The blocks grow by those of one record. */
  lemma {:induction false} BodyGrows(cpu: nat, records: seq<Entry>, e: Entry, format: RegFormat)
    ensures EncodeBlocks(FileBlocks(cpu, records + [e], format))
         == EncodeBlocks(FileBlocks(cpu, records, format)) + EncodeBlocks(BlocksOf(e, format))
  {
    hide EncodeBlocks, FrameBlocks, BlocksOf, Pow256;
    var first := VBlock(CPU_ID_VAR % Pow256(4), cpu % Pow256(8));
    FrameBlocksGrow(records, e, format);
    ConsConcat(first, FrameBlocks(records, format), BlocksOf(e, format));
    EncodeConcat([first] + FrameBlocks(records, format), BlocksOf(e, format));
  }

  lemma ConsConcat<T>(x: T, a: seq<T>, b: seq<T>)
    ensures [x] + (a + b) == ([x] + a) + b
  {
  }

  lemma {:induction false} FrameBlocksGrow(records: seq<Entry>, e: Entry, format: RegFormat)
    ensures FrameBlocks(records + [e], format) == FrameBlocks(records, format) + BlocksOf(e, format)
  {
    if records == [] {
      assert ([e])[1..] == [];
      assert FrameBlocks([e], format) == BlocksOf(e, format) + FrameBlocks([], format);
      assert records + [e] == [e];
    } else {
      assert (records + [e])[1..] == records[1..] + [e];
      FrameBlocksGrow(records[1..], e, format);
    }
  }

  /** Storing the size where it belongs. */
  lemma SizePatched(before: seq<Octet>, head: seq<Octet>, gap: seq<Octet>, body: seq<Octet>, contents: seq<Octet>,
                    bytes: seq<Octet>)
    requires contents == before + head + gap + body && |gap| == |bytes|
    ensures var at := |contents| - |body| - |gap|;
            0 <= at <= |contents| && contents[..at] + bytes + contents[at + |bytes|..] == before + (head + bytes + body)
  {
    var at := |before + head|;
    assert contents[..at] == before + head && contents[at + |bytes|..] == body;
  }

  lemma NoPieceYet(addr: nat, data: seq<Octet>)
    ensures data[0..] == data
    ensures EncodeBlocks(SplitMem(addr, data)) == [] + EncodeBlocks(SplitMem(addr, data))
  {
  }

  lemma AllPieces(at: nat, data: seq<Octet>, done: seq<Octet>)
    ensures done + EncodeBlocks(SplitMem(at, data[|data|..])) == done
  {
  }

  /** One turn of gtp_frame2file_m: the bytes it appends are those of the next block. */
  lemma NextPiece(at: nat, data: seq<Octet>, from: nat, n: nat)
    requires from < |data| && n == if |data| - from > BLOCK_MAX then BLOCK_MAX else |data| - from
    ensures var piece := data[from..from + n];
            var block := MBlock(at % Pow256(8), piece);
            && EncodeBlock(block) == [M_BYTE] + LittleEndian(at % Pow256(8), 8) + LittleEndian(n, 2) + piece
            && |EncodeBlock(block)| == 11 + n
            && EncodeBlocks(SplitMem(at, data[from..]))
               == EncodeBlock(block) + EncodeBlocks(SplitMem(at + n, data[from + n..]))
  {
    SplitFirst(at, data[from..], n);
    assert data[from..][..n] == data[from..from + n] && data[from..][n..] == data[from + n..];
  }
}
