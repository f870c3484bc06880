/**
 Collecting a trace frame into the page ring and reading its memory back: gtp_action_head,
 gtp_action_memory_read and the frame part of the `m` packet.
 */
module FrameCollect {
  import opened Options
  import opened PageRing
  import opened PageRuns
  import opened PageWalk
  import opened FrameOrder

  /** Traced memory: None where reading fails. */
  type Memory = nat -> Option<Octet>

  predicate CanRead(memory: Memory, addr: nat, n: nat) {
    forall x :: addr <= x < addr + n ==> memory(x).Some?
  }

  function Bytes(memory: Memory, addr: nat, n: nat): (b: seq<Octet>)
    requires CanRead(memory, addr, n)
    decreases n
    ensures |b| == n && forall i :: 0 <= i < n ==> b[i] == memory(addr + i).value
  {
    if n == 0 then [] else [memory(addr).value] + Bytes(memory, addr + 1, n - 1)
  }

  function Mems(entries: seq<Entry>): seq<Entry> {
    if entries == [] then []
    else
      var last := entries[|entries| - 1];
      Mems(entries[..|entries| - 1]) + if last.Mem? then [last] else []
  }

  /** The blocks cover [addr, addr + n) one after the other, with the bytes of the memory. */
  predicate Tiled(blocks: seq<Entry>, addr: nat, n: nat, memory: Memory) {
    if blocks == [] then n == 0
    else
      var last := blocks[|blocks| - 1];
      && last.Mem? && |last.data| <= n && last.addr == addr + n - |last.data|
      && CanRead(memory, last.addr, |last.data|) && last.data == Bytes(memory, last.addr, |last.data|)
      && Tiled(blocks[..|blocks| - 1], addr, n - |last.data|, memory)
  }

  /** What a frame's memory collection adds: its blocks, and the records of pages it goes on to. */
  predicate OnlyBlocks(added: seq<Entry>, id: nat) {
    forall i :: 0 <= i < |added| ==> added[i].Mem? || added[i] == PageBegin(id)
  }

  lemma CutAgain<T>(before: seq<T>, added: seq<T>, cut: seq<T>, now: seq<T>, cut': seq<T>, kept: seq<T>,
                    more: seq<T>, now': seq<T>)
    requires before + added == cut + now && now == cut' + kept && now' == kept + more
    ensures before + (added + more) == (cut + cut') + now'
  {
    assert before + (added + more) == (before + added) + more;
    assert (cut + (cut' + kept)) + more == (cut + cut') + (kept + more);
  }

  /** One more block, after the record of a new page if there is one. */
  lemma BlockAdded(added: seq<Entry>, begun: seq<Entry>, id: nat, addr: nat, n: nat, block: nat, memory: Memory)
    requires OnlyBlocks(added, id) && Tiled(Mems(added), addr, n, memory)
    requires begun == [] || begun == [PageBegin(id)]
    requires CanRead(memory, addr + n, block)
    ensures var added' := added + begun + [Mem(addr + n, Bytes(memory, addr + n, block))];
            OnlyBlocks(added', id) && Tiled(Mems(added'), addr, n + block, memory)
  {
    hide Tiled, Bytes, CanRead, Mems;
    var m := Mem(addr + n, Bytes(memory, addr + n, block));
    MemsAfter(added, begun, id, m);
    TiledMore(Mems(added), m, addr, n, block, memory);
  }

  lemma {:induction false} MemsAfter(added: seq<Entry>, begun: seq<Entry>, id: nat, m: Entry)
    requires (begun == [] || begun == [PageBegin(id)]) && m.Mem?
    ensures Mems(added + begun + [m]) == Mems(added) + [m]
  {
    var longer := added + begun;
    if begun == [] {
      assert longer == added;
    } else {
      assert longer[..|added|] == added;
    }
    assert (longer + [m])[..|longer|] == longer;
  }

  lemma {:induction false} TiledMore(blocks: seq<Entry>, m: Entry, addr: nat, n: nat, block: nat, memory: Memory)
    requires Tiled(blocks, addr, n, memory) && CanRead(memory, addr + n, block)
    requires m == Mem(addr + n, Bytes(memory, addr + n, block))
    ensures Tiled(blocks + [m], addr, n + block, memory)
  {
    assert (blocks + [m])[..|blocks|] == blocks;
  }

  /** How a collection ends. */
  datatype Collected = Done | FrameFull | BadAddress

  /** gtp_rb_count, the counter all CPUs take the ids of their frames from. */
  class Clock {
    var count: nat

    constructor ()
      ensures count == 0
    {
      count := 0;
    }

    /** gtp_rb_clock. */
    method Next() returns (id: nat)
      modifies this
      ensures id == count == old(count) + 1
    {
      count := count + 1;
      id := count;
    }
  }

  /** One CPU's ring and the frame being collected into it. */
  class Tracer {
    const rb: RingBuffer
    const clock: Clock
    const circular: bool
    var id: nat        // gts->id
    ghost var v: View

    constructor (rb: RingBuffer, clock: Clock, circular: bool, ghost v: View)
      requires Rep(rb.State(), v) && InOrder(v, 0, clock.count)
      ensures this.rb == rb && this.clock == clock && this.circular == circular && this.v == v && id == 0 && Valid()
    {
      this.rb, this.clock, this.circular, this.v := rb, clock, circular, v;
      id := 0;
    }

    ghost predicate Valid()
      reads this, rb, clock
    {
      Rep(rb.State(), v) && InOrder(v, id, clock.count)
    }

    /** The current page holds at least the record that begins it, as it does inside a frame. */
    ghost predicate InFrame()
      reads this
    {
      v.region != [] && EndOf(Current(v)) >= DATA + BEGIN_SIZE && id > 0
    }

    /** gtp_rb_alloc and the stores that follow it. */
    method Append(e: Entry, frame: nat) returns (ok: bool)
      requires Rep(rb.State(), v) && Record(e) && Size(e) <= DATA_MAX
      modifies rb, this`v
      ensures Rep(rb.State(), v) && rb.prevFrame == old(rb.prevFrame)
      ensures v == WrittenView(old(v), circular, e, frame)
      ensures ok <==> Opened(old(v), circular, Size(e), frame).Some?
      ensures ok ==> rb.w.off >= Size(e) && Addr(rb.w.page, rb.w.off - Size(e)) in rb.mem
      ensures ok ==> EndOf(Current(v)) >= DATA + Size(e)
    {
      hide Rep, Opened, RingOf, Appended, Linked;
      WriterStands(rb.State(), v);
      AlignedSize(e);
      WriteRep(rb.State(), v, circular, e, frame);
      AllocOpens(rb.State(), v, circular, Size(e), frame);
      var at := rb.Alloc(circular, Size(e), frame);
      if at.None? {
        return false;
      }
      EntryPlaced(v, circular, e, frame);
      rb.Fill(at.value, e);
      v := WrittenView(v, circular, e, frame);
      WriterStands(rb.State(), v);
      return true;
    }

    /** gtp_action_head: a frame with the next id of the clock, linked back to the frame before it. */
    method ActionHead(num: nat) returns (ok: bool)
      requires Valid()
      modifies this`v, this`id, rb, clock
      ensures Valid()
      ensures ok <==> Opened(old(v), circular, 28, 0).Some?
      ensures if ok then clock.count == old(clock.count) + 1 && id == clock.count && InFrame()
              else clock.count == old(clock.count) && id == old(id)
      ensures v == WrittenView(old(v), circular, Head(old(clock.count) + 1, num, old(rb.prevFrame)), 0)
      ensures if ok then rb.prevFrame == Some(Addr(rb.w.page, rb.w.off - 28)) else rb.prevFrame == old(rb.prevFrame)
      ensures HeadsFrom(old(v), v, Some(old(clock.count) + 1))
    {
      hide Rep, InOrder, Opened, WrittenView, RingOf;
      WriterStands(rb.State(), v);
      HeadInOrder(v, circular, id, clock.count, num, rb.prevFrame);
      var e := Head(clock.count + 1, num, rb.prevFrame);
      ok := Append(e, 0);
      WriterStands(rb.State(), v);
      if ok {
        id := clock.Next();
        rb.prevFrame := Some(Addr(rb.w.page, rb.w.off - 28));
      }
    }

    /** A register block or a variable of the frame. */
    method CollectRecord(e: Entry) returns (ok: bool)
      requires Valid() && InFrame() && Record(e) && !e.Head? && Size(e) <= DATA_MAX
      modifies this`v, rb
      ensures Valid() && InFrame() && rb.prevFrame == old(rb.prevFrame)
      ensures ok <==> Opened(old(v), circular, Size(e), id).Some?
      ensures v == WrittenView(old(v), circular, e, id) && HeadsFrom(old(v), v, None)
    {
      hide Rep, InOrder, Opened, WrittenView, RingOf;
      WriterStands(rb.State(), v);
      RecordInOrder(v, circular, id, clock.count, e);
      if Opened(v, circular, Size(e), id).Some? {
        BlockPlaced(v, circular, e, id);
      } else {
        NotWritten(v, circular, e, id);
      }
      ok := Append(e, id);
    }

    /** The size of the next block of gtp_action_memory_read. */
    function BlockSize(left: nat): (n: nat)
      requires left > 0 && Valid() && InFrame()
      reads this, rb, clock
      ensures n <= left && Align(MEM_SIZE + n) <= DATA_MAX
      ensures n == 0 ==> END - rb.w.off == MEM_SIZE
      ensures n == left || n == if 4088 - rb.w.off < 20 then 4048 else 4088 - rb.w.off - 20
    {
      assert PageOk(rb.mem, Current(v));
      var max := END - rb.w.off;
      var n := if max < MEM_SIZE then DATA_MAX - MEM_SIZE else max - MEM_SIZE;
      if n < left then n else left
    }

    /** gtp_rb_alloc, read_memory and the stores for one block; GTP_RB_RELEASE when reading fails. */
    method CollectBlock(addr: nat, n: nat, memory: Memory) returns (result: Collected)
      requires Valid() && InFrame() && Align(MEM_SIZE + n) <= DATA_MAX
      modifies this`v, rb
      ensures Valid() && HeadsFrom(old(v), v, None)
      ensures result == FrameFull <==> Opened(old(v), circular, Align(MEM_SIZE + n), id).None?
      ensures result == FrameFull ==> v == old(v)
      ensures result == BadAddress ==> !CanRead(memory, addr, n) && v == GivenBack(old(v), circular, Align(MEM_SIZE + n))
      ensures result == Done ==>
        && CanRead(memory, addr, n) && v == WrittenView(old(v), circular, Mem(addr, Bytes(memory, addr, n)), id)
        && InFrame() && rb.w.off == EndOf(Current(v))
        && (Room(old(v), Align(MEM_SIZE + n)) ==> rb.w.off == old(rb.w.off) + Align(MEM_SIZE + n))
    {
      hide Rep, Opened, WrittenView, GivenBack, RingOf, EndOff, CanRead, Bytes, InOrder, PageRing.Alloc, HeadsFrom;
      HeadsFromSelf(v);
      WriterStands(rb.State(), v);
      AllocOpens(rb.State(), v, circular, MEM_SIZE + n, id);
      ReleaseGivesBack(rb.State(), v, circular, MEM_SIZE + n, id);
      var at := rb.Alloc(circular, MEM_SIZE + n, id);
      if at.None? {
        return FrameFull;
      }
      if !CanRead(memory, addr, n) {
        rb.Release();
        GivenBackInOrder(v, circular, Align(MEM_SIZE + n), id, clock.count);
        v := GivenBack(v, circular, Align(MEM_SIZE + n));
        return BadAddress;
      }
      var e := Mem(addr, Bytes(memory, addr, n));
      SizeOfMem(e);
      AllocAligned(old(rb.State()), circular, MEM_SIZE + n, id);
      WriteRep(old(rb.State()), v, circular, e, id);
      rb.Fill(at.value, e);
      BlockPlaced(v, circular, e, id);
      RecordInOrder(v, circular, id, clock.count, e);
      v := WrittenView(v, circular, e, id);
      WriterStands(rb.State(), v);
      return Done;
    }

    /** gtp_action_memory_read: on success the frame gained blocks that tile [addr, addr + size)
        with the bytes read, over as many pages as it took. */
    method MemoryRead(addr: nat, size: nat, memory: Memory)
      returns (result: Collected, ghost added: seq<Entry>, ghost cut: seq<Entry>)
      requires Valid() && InFrame()
      modifies this`v, rb
      ensures Valid() && HeadsFrom(old(v), v, None)
      ensures result == Done ==>
        && InFrame() && OnlyBlocks(added, id) && Tiled(Mems(added), addr, size, memory)
        && old(Content(v)) + added == cut + Content(v) && (circular || cut == [])
      ensures result == BadAddress ==> !CanRead(memory, addr, size)
    {
      hide Rep, Content, WrittenView, Tiled, RingOf, InOrder, OnlyBlocks, Bytes, Mems, Opened, GivenBack, HeadsFrom;
      var left := size;
      added, cut := [], [];
      NothingAdded(v, id, addr, memory);
      HeadsFromSelf(v);
      while left > 0
        invariant Valid() && InFrame() && 0 <= left <= size
        invariant OnlyBlocks(added, id) && Tiled(Mems(added), addr, size - left, memory)
        invariant old(Content(v)) + added == cut + Content(v) && (circular || cut == [])
        invariant HeadsFrom(old(v), v, None)
        decreases left, END - rb.w.off
      {
        WriterStands(rb.State(), v);
        var n := BlockSize(left);
        ghost var v0 := v;
        var r := CollectBlock(addr + size - left, n, memory);
        HeadsFromFrom(old(v), v0, v);
        if r != Done {
          return r, added, cut;
        }
        added, cut := BlockRecorded(old(Content(v)), added, cut, v0, circular, id, addr, size - left, n, memory);
        left := left - n;
      }
      return Done, added, cut;
    }
  }

  lemma AllocAligned(rb: Rb, circular: bool, size: nat, id: nat)
    requires rb.w.page in rb.next && rb.r.page in rb.next
    ensures PageRing.Alloc(rb, circular, Align(size), id) == PageRing.Alloc(rb, circular, size, id)
  {
  }

  lemma BlockRecorded(before: seq<Entry>, added: seq<Entry>, cut: seq<Entry>, v: View, circular: bool, id: nat,
                      addr: nat, n: nat, block: nat, memory: Memory)
    returns (added': seq<Entry>, cut': seq<Entry>)
    requires v.region != [] && |RingOf(v)| >= 2 && id > 0 && Align(MEM_SIZE + block) <= DATA_MAX
    requires Opened(v, circular, Align(MEM_SIZE + block), id).Some? && CanRead(memory, addr + n, block)
    requires OnlyBlocks(added, id) && Tiled(Mems(added), addr, n, memory)
    requires before + added == cut + Content(v) && (circular || cut == [])
    ensures OnlyBlocks(added', id) && Tiled(Mems(added'), addr, n + block, memory)
    ensures var v' := WrittenView(v, circular, Mem(addr + n, Bytes(memory, addr + n, block)), id);
            before + added' == cut' + Content(v') && (circular || cut' == [])
  {
    hide Tiled, OnlyBlocks, Mems, Content, WrittenView, Opened, RingOf, CanRead;
    var m := Mem(addr + n, Bytes(memory, addr + n, block));
    var gone, kept, begun := WrittenContent(v, circular, m, id);
    BlockAdded(added, begun, id, addr, n, block, memory);
    var now, now' := Content(v), Content(WrittenView(v, circular, m, id));
    added', cut' := added + begun + [m], cut + gone;
    assert kept + begun + [m] == kept + (begun + [m]) && added' == added + (begun + [m]);
    CutAgain(before, added, cut, now, gone, kept, begun + [m], now');
  }

  lemma NothingAdded(v: View, id: nat, addr: nat, memory: Memory)
    ensures OnlyBlocks([], id) && Tiled(Mems([]), addr, 0, memory)
    ensures Content(v) + [] == [] + Content(v)
  {
  }

  lemma WriterStands(rb: Rb, v: View)
    requires Rep(rb, v)
    ensures v.region != [] && |RingOf(v)| >= 2
    ensures rb.w == Addr(Current(v).page, EndOf(Current(v))) && DATA <= rb.w.off <= END && rb.w.off % 4 == 0
  {
    assert PageOk(rb.mem, Current(v));
  }

  lemma EntryPlaced(v: View, circular: bool, e: Entry, id: nat)
    requires v.region != [] && |RingOf(v)| >= 2 && Size(e) <= DATA_MAX && EndOf(Current(v)) >= DATA
    requires Opened(v, circular, Size(e), id).Some?
    ensures var v' := WrittenView(v, circular, e, id);
            v'.region != [] && EndOf(Current(v')) >= DATA + Size(e)
  {
    var p := Current(Opened(v, circular, Size(e), id).value);
    EndGrowsBy(p.start, p.entries, e);
  }

  lemma BlockPlaced(v: View, circular: bool, e: Entry, id: nat)
    requires v.region != [] && |RingOf(v)| >= 2 && Size(e) <= DATA_MAX && id > 0
    requires EndOf(Current(v)) >= DATA + BEGIN_SIZE
    requires Opened(v, circular, Size(e), id).Some?
    ensures var v' := WrittenView(v, circular, e, id);
            && v'.region != [] && EndOf(Current(v')) >= DATA + BEGIN_SIZE
            && (Room(v, Size(e)) ==> EndOf(Current(v')) == EndOf(Current(v)) + Size(e))
  {
    var o := Opened(v, circular, Size(e), id).value;
    var p := Current(o);
    EndGrowsBy(p.start, p.entries, e);
  }

  lemma {:induction false} EndGrowsBy(start: int, entries: seq<Entry>, e: Entry)
    ensures EndOff(start, entries + [e]) == EndOff(start, entries) + Size(e)
    decreases |entries|
  {
    if entries == [] {
      assert (entries + [e])[1..] == [];
    } else {
      assert (entries + [e])[1..] == entries[1..] + [e];
      EndGrowsBy(start + Size(entries[0]), entries[1..], e);
    }
  }

  // ----- reading the memory of a frame back -----

  /** The entries up to the next frame's head. */
  function FramePart(flat: seq<Entry>): seq<Entry> {
    if flat == [] || flat[0].Head? then [] else [flat[0]] + FramePart(flat[1..])
  }

  lemma {:induction false} MemsConcat(a: seq<Entry>, b: seq<Entry>)
    ensures Mems(a + b) == Mems(a) + Mems(b)
    decreases |b|
  {
    if b == [] {
      assert a + b == a;
    } else {
      assert (a + b)[..|a + b| - 1] == a + b[..|b| - 1];
      MemsConcat(a, b[..|b| - 1]);
    }
  }

  lemma MemsOfOne(e: Entry, flat: seq<Entry>)
    ensures Mems([e] + flat) == (if e.Mem? then [e] else []) + Mems(flat)
  {
    MemsConcat([e], flat);
    assert Mems([e]) == if e.Mem? then [e] else [];
  }

  /** The walker of the `m` packet, inside frame `id`. */
  function ToMem(w: Addr, id: nat): Walker {
    Walker(Some(w), true, false, Some(id), Some(MemKind), None)
  }

  /** It finds the next block of the frame, or there is none. */
  lemma {:induction false} NextBlock(w: Addr, id: nat, flat: seq<Entry>)
    requires Ordered(Some(id), flat)
    ensures var (reason, rest) := FlatScan(ToMem(w, id), flat, 0);
            && Mems(FramePart(rest)) == Mems(FramePart(flat)) && Ordered(Some(id), rest)
            && (if reason == AtType then rest != [] && rest[0].Mem? else Mems(FramePart(flat)) == [])
    decreases |flat|
  {
    if flat != [] && StopAt(ToMem(w, id), flat[0], 0).None? {
      NextBlock(w, id, flat[1..]);
      MemsOfOne(flat[0], FramePart(flat[1..]));
    }
  }

  function Patch(buffer: seq<Octet>, addr: nat, block: Entry): (r: seq<Octet>)
    requires block.Mem?
    ensures |r| == |buffer|
    ensures forall i :: 0 <= i < |r| ==>
      r[i] == if block.addr <= addr + i < block.addr + |block.data| then block.data[addr + i - block.addr] else buffer[i]
  {
    seq<Octet>(|buffer|, i requires 0 <= i < |buffer| =>
      if block.addr <= addr + i < block.addr + |block.data| then block.data[addr + i - block.addr] else buffer[i])
  }

  predicate AllBlocks(blocks: seq<Entry>) {
    forall i :: 0 <= i < |blocks| ==> blocks[i].Mem?
  }

  /** The window at `addr` after each block was copied over it in turn. */
  function Overlay(buffer: seq<Octet>, addr: nat, blocks: seq<Entry>): (r: seq<Octet>)
    requires AllBlocks(blocks)
    ensures |r| == |buffer|
  {
    if blocks == [] then buffer
    else Patch(Overlay(buffer, addr, blocks[..|blocks| - 1]), addr, blocks[|blocks| - 1])
  }

  /** Over blocks that tile a range, every byte of the window inside the range is the collected
      one, whatever the buffer held. */
  lemma {:induction false} OverlayTiled(buffer: seq<Octet>, addr: nat, blocks: seq<Entry>, start: nat, n: nat,
                                        memory: Memory, i: nat)
    requires AllBlocks(blocks) && Tiled(blocks, start, n, memory)
    requires i < |buffer| && start <= addr + i < start + n
    ensures memory(addr + i).Some? && Overlay(buffer, addr, blocks)[i] == memory(addr + i).value
    decreases |blocks|
  {
    hide Tiled, Overlay, CanRead, Bytes;
    TiledLast(blocks, start, n, memory);
    var last, before := blocks[|blocks| - 1], blocks[..|blocks| - 1];
    OverlayMore(buffer, addr, before, last);
    assert blocks == before + [last];
    var x := addr + i;
    if last.addr > x {
      OverlayTiled(buffer, addr, before, start, n - |last.data|, memory, i);
    } else {
      ByteOf(memory, last.addr, |last.data|, x - last.addr);
    }
  }

  /** The last of the blocks that tile a range, and the range the others tile. */
  lemma TiledLast(blocks: seq<Entry>, start: nat, n: nat, memory: Memory)
    requires Tiled(blocks, start, n, memory) && n > 0
    ensures blocks != []
    ensures var last := blocks[|blocks| - 1];
            && last.Mem? && |last.data| <= n && last.addr == start + n - |last.data|
            && CanRead(memory, last.addr, |last.data|) && last.data == Bytes(memory, last.addr, |last.data|)
            && Tiled(blocks[..|blocks| - 1], start, n - |last.data|, memory)
  {
  }

  lemma ByteOf(memory: Memory, addr: nat, n: nat, i: nat)
    requires CanRead(memory, addr, n) && i < n
    ensures memory(addr + i).Some? && Bytes(memory, addr, n)[i] == memory(addr + i).value
  {
  }

  lemma OverlayMore(buffer: seq<Octet>, addr: nat, blocks: seq<Entry>, m: Entry)
    requires AllBlocks(blocks) && m.Mem?
    ensures AllBlocks(blocks + [m])
    ensures Overlay(buffer, addr, blocks + [m]) == Patch(Overlay(buffer, addr, blocks), addr, m)
  {
    assert (blocks + [m])[..|blocks|] == blocks;
  }

  /** The block has a byte of the window. */
  predicate Meets(m: Entry, addr: nat, len: nat)
    requires m.Mem?
  {
    |m.data| > 0 && len > 0 && m.addr < addr + len && addr < m.addr + |m.data|
  }

  predicate Touches(blocks: seq<Entry>, addr: nat, len: nat)
    requires AllBlocks(blocks)
  {
    exists k :: 0 <= k < |blocks| && Meets(blocks[k], addr, len)
  }

  lemma MemsAreBlocks(entries: seq<Entry>)
    ensures AllBlocks(Mems(entries))
  {
  }

  /** The place after a block the walk stopped at. */
  lemma BlockPassed(rb: Rb, at: Addr, id: nat, rest: seq<seq<Entry>>, pages: seq<Page>)
    requires Stands(rb.next, rb.mem, Some(rb.w), at, rest, pages) && rest[0] != [] && rest[0][0].Mem?
    requires Ordered(Some(id), Flat(rest))
    ensures at in rb.mem && rb.mem[at] == rest[0][0]
    ensures var rest' := [rest[0][1..]] + rest[1..];
            && Stands(rb.next, rb.mem, Some(rb.w), Addr(at.page, at.off + Size(rest[0][0])), rest', pages)
            && Ordered(Some(id), Flat(rest'))
            && Mems(FramePart(Flat(rest))) == [rest[0][0]] + Mems(FramePart(Flat(rest')))
  {
    Tests(rb.next, rb.mem, Some(rb.w), at, rest, pages);
    StepsOver(rb.next, rb.mem, Some(rb.w), at, rest, pages);
    FlatTail(rest);
    MemsOfOne(rest[0][0], FramePart(Flat([rest[0][1..]] + rest[1..])));
  }

  /** The part of a block inside the window is copied there; `met` says whether there is any. */
  method CopyBlock(m: Entry, addr: nat, buffer: array<Octet>) returns (met: bool)
    requires m.Mem?
    modifies buffer
    ensures buffer[..] == Patch(old(buffer[..]), addr, m)
    ensures met <==> Meets(m, addr, buffer.Length)
  {
    var from := if m.addr > addr then m.addr else addr;
    var to := if m.addr + |m.data| < addr + buffer.Length then m.addr + |m.data| else addr + buffer.Length;
    met := from < to;
    if met {
      forall i | from - addr <= i < to - addr {
        buffer[i] := m.data[addr + i - m.addr];
      }
    }
  }

  /** The frame part of the `m` packet for the window [addr, addr + |buffer|): the blocks of frame
      `id`, whose entries after the head begin at `start`, are copied over what `buffer` held.
      `live` says whether the read before that succeeded. */
  method ReadBack(rb: Rb, start: Addr, id: nat, addr: nat, buffer: array<Octet>, live: bool,
                  ghost rest: seq<seq<Entry>>, ghost pages: seq<Page>) returns (ok: bool)
    requires Stands(rb.next, rb.mem, Some(rb.w), start, rest, pages) && Ordered(Some(id), Flat(rest))
    modifies buffer
    ensures AllBlocks(Mems(FramePart(Flat(rest))))
    ensures buffer[..] == Overlay(old(buffer[..]), addr, Mems(FramePart(Flat(rest))))
    ensures ok <==> live || Touches(Mems(FramePart(Flat(rest))), addr, buffer.Length)
  {
    hide Stands, Scan, Flat, Ordered, Mems, FramePart, Size, Overlay, Patch, Touches, Meets, FlatScan;
    var at, len := start, buffer.Length;
    ghost var rest', pages', blocks: seq<Entry> := rest, pages, [];
    ghost var all := Mems(FramePart(Flat(rest)));
    MemsAreBlocks(FramePart(Flat(rest)));
    StandsSomewhere(rb.next, rb.mem, Some(rb.w), at, rest, pages);
    NoBlocks(buffer[..], addr);
    ok := live;
    while true
      invariant rest' != [] && Stands(rb.next, rb.mem, Some(rb.w), at, rest', pages') && Ordered(Some(id), Flat(rest'))
      invariant all == blocks + Mems(FramePart(Flat(rest'))) && AllBlocks(blocks)
      invariant buffer[..] == Overlay(old(buffer[..]), addr, blocks)
      invariant ok <==> live || Touches(blocks, addr, len)
      decreases |all| - |blocks|
    {
      PagesVanish(ToMem(rb.w, id), rest', 0);
      NextBlock(rb.w, id, Flat(rest'));
      StopsAtEntry(ToMem(rb.w, id), true, rest', 0);
      var reason;
      reason, at, rest', pages' := Walk(rb.next, rb.mem, ToMem(rb.w, id), at, rest', pages');
      StandsSomewhere(rb.next, rb.mem, Some(rb.w), at, rest', pages');
      if reason != AtType {
        assert all == blocks;
        return;
      }
      BlockPassed(rb, at, id, rest', pages');
      var m := rb.mem[at];
      var met := CopyBlock(m, addr, buffer);
      ok := ok || met;
      TouchesMore(blocks, m, addr, len);
      OverlayMore(old(buffer[..]), addr, blocks, m);
      blocks := blocks + [m];
      at := Addr(at.page, at.off + Align(MEM_SIZE + |m.data|));
      SizeOfMem(m);
      rest' := [rest'[0][1..]] + rest'[1..];
    }
  }

  lemma NoBlocks(buffer: seq<Octet>, addr: nat)
    ensures Overlay(buffer, addr, []) == buffer && !Touches([], addr, |buffer|)
  {
  }

  lemma SizeOfMem(m: Entry)
    requires m.Mem?
    ensures Size(m) == Align(MEM_SIZE + |m.data|)
  {
  }

  lemma TouchesMore(blocks: seq<Entry>, m: Entry, addr: nat, len: nat)
    requires AllBlocks(blocks) && m.Mem?
    ensures AllBlocks(blocks + [m])
    ensures Touches(blocks + [m], addr, len)
       <==> Touches(blocks, addr, len) || Meets(m, addr, len)
  {
    var more := blocks + [m];
    if Touches(blocks, addr, len) {
      var k :| 0 <= k < |blocks| && Meets(blocks[k], addr, len);
      assert more[k] == blocks[k];
    }
    assert more[|blocks|] == m;
  }

  /** Reading back what a collection added.  The entries after the frame's head are `flat`: first
      others without memory, then those the collection added, then what came later, none of it
      memory of this frame.  A window inside the collected range holds exactly the bytes that were
      read from memory, however many pages the blocks span. */
  lemma RoundTrip(flat: seq<Entry>, others: seq<Entry>, added: seq<Entry>, later: seq<Entry>, id: nat,
                  start: nat, n: nat, memory: Memory, addr: nat, buffer: seq<Octet>)
    requires flat == others + added + later
    requires (forall i :: 0 <= i < |others| ==> !others[i].Head?) && Mems(others) == []
    requires OnlyBlocks(added, id) && Tiled(Mems(added), start, n, memory) && Mems(FramePart(later)) == []
    requires start <= addr && addr + |buffer| <= start + n
    ensures CanRead(memory, addr, |buffer|) && AllBlocks(Mems(FramePart(flat)))
    ensures Overlay(buffer, addr, Mems(FramePart(flat))) == Bytes(memory, addr, |buffer|)
    ensures |buffer| > 0 ==> Touches(Mems(FramePart(flat)), addr, |buffer|)
  {
    BlocksOfCollection(flat, others, added, later);
    MemsAreBlocks(added);
    hide *;
    WindowExact(Mems(added), start, n, memory, addr, buffer);
  }

  /** Over blocks that tile a range, a window inside it shows the bytes of the memory. */
  lemma WindowExact(blocks: seq<Entry>, start: nat, n: nat, memory: Memory, addr: nat, buffer: seq<Octet>)
    requires AllBlocks(blocks) && Tiled(blocks, start, n, memory)
    requires start <= addr && addr + |buffer| <= start + n
    ensures CanRead(memory, addr, |buffer|) && Overlay(buffer, addr, blocks) == Bytes(memory, addr, |buffer|)
    ensures |buffer| > 0 ==> Touches(blocks, addr, |buffer|)
  {
    hide Overlay, Tiled, Touches;
    forall i | 0 <= i < |buffer|
      ensures memory(addr + i).Some? && Overlay(buffer, addr, blocks)[i] == memory(addr + i).value
    {
      OverlayTiled(buffer, addr, blocks, start, n, memory, i);
    }
    forall x | addr <= x < addr + |buffer|
      ensures memory(x).Some?
    {
      OverlayTiled(buffer, addr, blocks, start, n, memory, x - addr);
    }
    if |buffer| > 0 {
      TiledTouches(blocks, start, n, memory, addr, |buffer|);
    }
  }

  lemma BlocksOfCollection(flat: seq<Entry>, others: seq<Entry>, added: seq<Entry>, later: seq<Entry>)
    requires flat == others + added + later
    requires (forall i :: 0 <= i < |others| ==> !others[i].Head?) && Mems(others) == []
    requires (forall i :: 0 <= i < |added| ==> !added[i].Head?) && Mems(FramePart(later)) == []
    ensures Mems(FramePart(flat)) == Mems(added)
  {
    PartOf(others + added, later);
    MemsConcat(others + added, FramePart(later));
    MemsConcat(others, added);
  }

  lemma {:induction false} PartOf(a: seq<Entry>, b: seq<Entry>)
    requires forall i :: 0 <= i < |a| ==> !a[i].Head?
    ensures FramePart(a + b) == a + FramePart(b)
    decreases |a|
  {
    if a == [] {
      assert a + b == b;
    } else {
      assert (a + b)[1..] == a[1..] + b;
      PartOf(a[1..], b);
    }
  }

  lemma {:induction false} TiledTouches(blocks: seq<Entry>, start: nat, n: nat, memory: Memory, addr: nat, len: nat)
    requires AllBlocks(blocks) && Tiled(blocks, start, n, memory) && len > 0 && start <= addr < start + n
    ensures Touches(blocks, addr, len)
    decreases |blocks|
  {
    if blocks != [] {
      var last, before := blocks[|blocks| - 1], blocks[..|blocks| - 1];
      if addr < last.addr {
        TiledTouches(before, start, n - |last.data|, memory, addr, len);
        TouchesMore(before, last, addr, len);
        assert before + [last] == blocks;
      }
    }
  }
}
