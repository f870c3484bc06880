/**
 What a reader of the trace file finds in a frame, said of the blocks alone: the CPU's number as the
 variable $cpu_id, then the blocks of the frame's records in order.
 */
module FrameShown {
  import opened Options
  import opened Division
  import opened PageRing
  import opened Delivery
  import opened FrameFile
  import opened FrameMeaning

  /** How many blocks a record takes: memory one for each 65535 bytes begun. */
  function Pieces(e: Entry): nat {
    if e.Mem? then (|e.data| + 65534) / 65535 else 1
  }

  /** Block i of a piece of memory: the bytes from 65535 * i on, as many as fit, and where they were. */
  predicate ShowsPiece(b: Block, addr: nat, data: seq<Octet>, i: nat) {
    var from := 65535 * i;
    var to := if from + 65535 < |data| then from + 65535 else |data|;
    from <= to && b == MBlock((addr + from) % TWO64, data[from..to])
  }

  predicate ShowsRecord(bs: seq<Block>, e: Entry, format: RegFormat) {
    match e
    case Reg(regs) => bs == [RBlock(format.bin(regs))]
    case Mem(addr, data) => |bs| == Pieces(e) && forall i :: 0 <= i < |bs| ==> ShowsPiece(bs[i], addr, data, i)
    case Var(num, val) => bs == [VBlock(num % TWO32, val % TWO64)]
    case _ => false
  }

  predicate ShowsRecords(bs: seq<Block>, records: seq<Entry>, format: RegFormat) {
    if records == [] then bs == []
    else
      var n := Pieces(records[0]);
      n <= |bs| && ShowsRecord(bs[..n], records[0], format) && ShowsRecords(bs[n..], records[1..], format)
  }

  /** A frame collected on CPU `cpu` with these records. */
  predicate Shows(bs: seq<Block>, cpu: nat, records: seq<Entry>, format: RegFormat) {
    bs != [] && bs[0] == VBlock(2, cpu % TWO64) && ShowsRecords(bs[1..], records, format)
  }

  /** The CPU and the records determine the blocks. */
  lemma {:induction false} ShowsOne(a: seq<Block>, b: seq<Block>, records: seq<Entry>, format: RegFormat)
    requires ShowsRecords(a, records, format) && ShowsRecords(b, records, format)
    ensures a == b
    decreases |records|
  {
    if records != [] {
      var e := records[0];
      var n := Pieces(e);
      ShowsOne(a[n..], b[n..], records[1..], format);
      assert a[..n] == b[..n] by {
        if e.Mem? {
          forall i | 0 <= i < n ensures a[..n][i] == b[..n][i] {
            assert ShowsPiece(a[..n][i], e.addr, e.data, i) && ShowsPiece(b[..n][i], e.addr, e.data, i);
          }
        }
      }
      assert a == a[..n] + a[n..] && b == b[..n] + b[n..];
    }
  }

  /** The blocks determine the CPU. */
  lemma CpuShows(bs: seq<Block>, cpu: nat, other: nat, records: seq<Entry>, more: seq<Entry>, format: RegFormat)
    requires cpu < TWO64 && other < TWO64 && Shows(bs, cpu, records, format) && Shows(bs, other, more, format)
    ensures cpu == other
  {
    assert bs[0].val == cpu && bs[0].val == other;
  }

  lemma {:induction false} SplitShows(addr: nat, data: seq<Octet>)
    ensures ShowsRecord(SplitMem(addr, data), Mem(addr, data), RegFormat(0, s => []))
    decreases |data|
  {
    hide Pow256;
    Powers();
    var bs := SplitMem(addr, data);
    if data != [] {
      var n := if |data| > BLOCK_MAX then BLOCK_MAX else |data|;
      SplitFirst(addr, data, n);
      SplitShows(addr + n, data[n..]);
      var rest := SplitMem(addr + n, data[n..]);
      assert |bs| == |rest| + 1 && Pieces(Mem(addr, data)) == Pieces(Mem(addr + n, data[n..])) + 1;
      forall i | 0 <= i < |bs| ensures ShowsPiece(bs[i], addr, data, i) {
        if i > 0 {
          assert bs[i] == rest[i - 1] && ShowsPiece(rest[i - 1], addr + n, data[n..], i - 1);
          PieceShifts(rest[i - 1], addr, data, i);
        }
      }
    }
  }

  lemma PieceShifts(b: Block, addr: nat, data: seq<Octet>, i: nat)
    requires i > 0 && |data| > 65535 && ShowsPiece(b, addr + 65535, data[65535..], i - 1)
    ensures ShowsPiece(b, addr, data, i)
  {
    var from := 65535 * (i - 1);
    var to := if from + 65535 < |data| - 65535 then from + 65535 else |data| - 65535;
    SliceBehind(data, 65535, from, to);
  }

  lemma SliceBehind(data: seq<Octet>, k: nat, from: nat, to: nat)
    requires from <= to && k + to <= |data|
    ensures data[k..][from..to] == data[k + from..k + to]
  {
  }

  lemma RecordShows(e: Entry, format: RegFormat)
    requires IsRecord(e)
    ensures ShowsRecord(BlocksOf(e, format), e, format) && |BlocksOf(e, format)| == Pieces(e)
  {
    Powers();
    hide SplitMem, Pow256;
    if e.Mem? {
      SplitShows(e.addr, e.data);
    }
  }

  lemma {:induction false} RecordsShow(records: seq<Entry>, format: RegFormat)
    requires forall i :: 0 <= i < |records| ==> IsRecord(records[i])
    ensures ShowsRecords(FrameBlocks(records, format), records, format)
    decreases |records|
  {
    hide BlocksOf, ShowsRecord, Pieces;
    if records != [] {
      var first, rest := BlocksOf(records[0], format), FrameBlocks(records[1..], format);
      RecordShows(records[0], format);
      RecordsShow(records[1..], format);
      assert (first + rest)[..|first|] == first && (first + rest)[|first|..] == rest;
    }
  }

  /** The blocks the exporter writes are those. */
  lemma BlocksShow(cpu: nat, records: seq<Entry>, format: RegFormat)
    requires forall i :: 0 <= i < |records| ==> IsRecord(records[i])
    ensures Shows(FileBlocks(cpu, records, format), cpu, records, format)
  {
    RecordsShow(records, format);
    Powers();
    hide FrameBlocks, ShowsRecords, Pow256;
    assert FileBlocks(cpu, records, format)[1..] == FrameBlocks(records, format);
  }

  /** The records of a delivered frame are records. */
  lemma {:induction false} AllRecords(part: seq<Entry>)
    ensures forall i :: 0 <= i < |Records(part)| ==> IsRecord(Records(part)[i])
  {
    if part != [] {
      AllRecords(part[1..]);
    }
  }

  // ----- the bytes -----

  lemma {:induction false} ByteOf(v: nat, n: nat, i: nat)
    requires i < n
    ensures LittleEndian(v, n)[i] == v / Pow256(i) % 256
    decreases i
  {
    if i > 0 {
      ByteOf(v / 256, n - 1, i - 1);
      DivTwice(v, Pow256(i - 1));
    }
  }

  /** The first byte tells the kind of a block, V, R or M; numbers follow with their low byte first, a
      variable's in 4 bytes, its value in 8, an address in 8, a length in 2. */
  lemma BlockBytes(b: Block)
    ensures var s := EncodeBlock(b);
            match b
            case RBlock(bin) => s == [82] + bin
            case MBlock(addr, data) =>
              && |s| == 11 + |data| && s[0] == 77 && s[11..] == data
              && (forall i :: 0 <= i < 8 ==> s[1 + i] == addr / Pow256(i) % 256)
              && s[9] == |data| % 256 && s[10] == |data| / 256 % 256
            case VBlock(num, val) =>
              && |s| == 13 && s[0] == 86
              && (forall i :: 0 <= i < 4 ==> s[1 + i] == num / Pow256(i) % 256)
              && (forall i :: 0 <= i < 8 ==> s[5 + i] == val / Pow256(i) % 256)
  {
    hide Pow256, LittleEndian;
    Powers();
    match b
    case RBlock(bin) =>
    case MBlock(addr, data) =>
      forall i | 0 <= i < 8 ensures EncodeBlock(b)[1 + i] == addr / Pow256(i) % 256 {
        ByteOf(addr, 8, i);
      }
      ByteOf(|data|, 2, 0);
      ByteOf(|data|, 2, 1);
      FirstPowers();
    case VBlock(num, val) =>
      forall i | 0 <= i < 4 ensures EncodeBlock(b)[1 + i] == num / Pow256(i) % 256 {
        ByteOf(num, 4, i);
      }
      forall i | 0 <= i < 8 ensures EncodeBlock(b)[5 + i] == val / Pow256(i) % 256 {
        ByteOf(val, 8, i);
      }
  }

  lemma FirstPowers()
    ensures Pow256(0) == 1 && Pow256(1) == 256
  {
  }

  // ----- a frame read back -----

  /** The bytes are one frame, which a reader finds to be of this tracepoint and CPU, with these records. */
  ghost predicate ReadsAs(s: seq<Octet>, num: nat, cpu: nat, records: seq<Entry>, format: RegFormat) {
    match DecodeFrame(s, format.size)
    case None => false
    case Some((n, bs, left)) => n == num % 65536 && left == [] && Shows(bs, cpu, records, format)
  }

  lemma {:induction false} ExportReadsAs(num: nat, cpu: nat, records: seq<Entry>, format: RegFormat)
    requires format.Valid() && forall i :: 0 <= i < |records| ==> IsRecord(records[i])
    requires |EncodeBlocks(FileBlocks(cpu, records, format))| < Pow256(4)
    ensures ReadsAs(EncodeFrame(num % Pow256(2), FileBlocks(cpu, records, format)), num, cpu, records, format)
  {
    hide EncodeBlocks, FileBlocks, EncodeFrame, DecodeFrame, Pow256, Shows;
    Powers();
    BlocksShow(cpu, records, format);
    ExportRoundTrip(num, cpu, records, format, []);
    var bs := FileBlocks(cpu, records, format);
    assert EncodeFrame(num % Pow256(2), bs) + [] == EncodeFrame(num % Pow256(2), bs);
  }
}
