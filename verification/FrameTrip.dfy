/**
 The whole way of a trace frame: one CPU of many collects its head, records and memory into the page
 ring, frames on any CPU follow, GDB selects a frame by number among those of all CPUs, and the `m`
 packet reads a window of it back.
 */
module FrameTrip {
  import opened Options
  import opened PageRing
  import opened PageRuns
  import opened PageWalk
  import opened FrameRead
  import opened FrameOrder
  import opened FrameCollect
  import opened Delivery

  /** No head among the entries has this id. */
  predicate Lacks(flat: seq<Entry>, id: nat) {
    forall i :: 0 <= i < |flat| && flat[i].Head? ==> flat[i].id != id
  }

  lemma HeadPlace(kept: seq<Entry>, h: Entry, part: seq<Entry>, later: seq<Entry>, k: nat)
    requires h.Head? && Lacks(kept, h.id) && NoHead(part) && Lacks(later, h.id) && k < |kept + [h] + part + later|
    ensures var e := (kept + [h] + part + later)[k]; e.Head? && e.id == h.id ==> k == |kept|
  {
    var e := (kept + [h] + part + later)[k];
    if k < |kept| {
      assert e == kept[k];
    } else if |kept| < k <= |kept| + |part| {
      assert e == part[k - |kept| - 1];
    } else if k > |kept| {
      assert e == later[k - |kept| - 1 - |part|];
    }
  }

  /** The head found is the one collected, so its frame is what was collected, and what was written
      later follows. */
  lemma {:induction false} SameFrame(kept: seq<Entry>, h: Entry, part: seq<Entry>, later: seq<Entry>, cut: seq<Entry>,
                                     passed: seq<Entry>, found: Entry, tail: seq<Entry>)
    requires h.Head? && found.Head? && found.id == h.id && Lacks(kept, h.id) && NoHead(part) && Lacks(later, h.id)
    requires kept + [h] + part + later == cut + (passed + ([found] + tail))
    ensures tail == part + later
  {
    var all := kept + [h] + part + later;
    var k := |cut| + |passed|;
    assert all == cut + passed + [found] + tail;
    assert all[k] == found;
    HeadPlace(kept, h, part, later, k);
    assert tail == all[k + 1..] && part + later == all[|kept| + 1..];
  }

  lemma {:induction false} NoHeadInBlocks(id: nat, added: seq<Entry>)
    requires OnlyBlocks(added, id)
    ensures NoHead(added)
  {
  }

  /** A head's id is among the ids of the heads. */
  lemma {:induction false} HeadIsIn(flat: seq<Entry>, i: nat)
    requires i < |flat| && flat[i].Head?
    ensures flat[i].id in Heads(flat)
    decreases |flat|
  {
    if i > 0 {
      HeadIsIn(flat[1..], i - 1);
    }
  }

  /** No head has an id that is not among those of the heads. */
  lemma {:induction false} LacksOthers(flat: seq<Entry>, id: nat)
    requires id !in Heads(flat)
    ensures Lacks(flat, id)
  {
    forall i | 0 <= i < |flat| && flat[i].Head? ensures flat[i].id != id {
      HeadIsIn(flat, i);
    }
  }

  // ----- what is written, and what circular mode cuts off -----

  /** `more` was written at the end of what the CPU held, and `cut` discarded at the front. */
  ghost predicate Wrote(v: View, v': View, more: seq<Entry>, cut: seq<Entry>) {
    Content(v) + more == cut + Content(v')
  }

  lemma WroteNothing(v: View)
    ensures Wrote(v, v, [], [])
  {
    assert Content(v) + [] == [] + Content(v);
  }

  lemma WroteMore(v: View, v1: View, v2: View, more: seq<Entry>, cut: seq<Entry>, more': seq<Entry>, cut': seq<Entry>)
    requires Wrote(v, v1, more, cut) && Wrote(v1, v2, more', cut')
    ensures Wrote(v, v2, more + more', cut + cut')
  {
    hide Content;
    assert Content(v) + (more + more') == (Content(v) + more) + more' == cut + (Content(v1) + more');
    assert cut + (cut' + Content(v2)) == (cut + cut') + Content(v2);
  }

  lemma {:induction false} WroteEntry(v: View, circular: bool, e: Entry, id: nat)
    returns (more: seq<Entry>, cut: seq<Entry>)
    requires v.region != [] && |RingOf(v)| >= 2 && Size(e) <= DATA_MAX && Opened(v, circular, Size(e), id).Some?
    ensures Wrote(v, WrittenView(v, circular, e, id), more, cut) && (circular || cut == [])
    ensures more == [e] || (more == [PageBegin(id), e] && id > 0)
  {
    hide WrittenView, RingOf, Opened, Content;
    var c, kept, begun := WrittenContent(v, circular, e, id);
    more, cut := begun + [e], c;
    assert c + kept + more == c + (kept + begun + [e]);
  }

  /** Records a frame can hold: registers, variables, and blocks of memory that fit a page. */
  predicate Recordable(records: seq<Entry>) {
    forall i :: 0 <= i < |records| ==> Counted(records[i]) && Size(records[i]) <= DATA_MAX
  }

  predicate NoMemory(records: seq<Entry>) {
    forall i :: 0 <= i < |records| ==> !records[i].Mem?
  }

  lemma {:induction false} RecordAdded(added: seq<Entry>, records: seq<Entry>, i: nat, more: seq<Entry>, id: nat)
    requires i < |records| && Recordable(records) && (more == [records[i]] || more == [PageBegin(id), records[i]])
    requires NoHead(added) && Records(added) == records[..i] && (NoMemory(records) ==> Mems(added) == [])
    ensures NoHead(added + more) && Records(added + more) == records[..i + 1]
    ensures NoMemory(records) ==> Mems(added + more) == []
  {
    hide Records, Mems;
    OneRecord(records[i], more, id);
    RecordsAppend(added, more);
    MemsConcat(added, more);
    assert records[..i + 1] == records[..i] + [records[i]];
  }

  lemma {:induction false} OneRecord(e: Entry, more: seq<Entry>, id: nat)
    requires Counted(e) && (more == [e] || more == [PageBegin(id), e])
    ensures NoHead(more) && Records(more) == [e] && (!e.Mem? ==> Mems(more) == [])
  {
    assert Records([e]) == [e] + Records([e][1..]);
    MemsConcat([], [e]);
    assert Mems([e]) == if e.Mem? then [e] else [];
    if more != [e] {
      assert more[1..] == [e] && more == [PageBegin(id)] + [e];
      MemsConcat([PageBegin(id)], [e]);
      assert Mems([PageBegin(id)]) == [];
    }
  }

  /** The records of a frame one after the other, up to the first that finds no room. */
  method AddRecords(t: Tracer, records: seq<Entry>) returns (ok: bool, ghost added: seq<Entry>, ghost cut: seq<Entry>)
    requires t.Valid() && t.InFrame() && Recordable(records)
    modifies t`v, t.rb
    ensures t.Valid() && t.InFrame() && HeadsFrom(old(t.v), t.v, None)
    ensures Wrote(old(t.v), t.v, added, cut) && NoHead(added) && (t.circular || cut == [])
    ensures NoMemory(records) ==> Mems(added) == []
    ensures ok ==> Records(added) == records
  {
    hide Rep, InOrder, Wrote, HeadsFrom, Opened, WrittenView, RingOf, Records, Mems, NoHead;
    added, cut := [], [];
    ghost var v0 := t.v;
    WroteNothing(v0);
    HeadsFromSelf(v0);
    NoneAdded();
    for i := 0 to |records|
      invariant t.Valid() && t.InFrame() && HeadsFrom(v0, t.v, None)
      invariant Wrote(v0, t.v, added, cut) && NoHead(added) && (t.circular || cut == [])
      invariant Records(added) == records[..i] && (NoMemory(records) ==> Mems(added) == [])
    {
      ghost var v1, more, gone := t.v, [], [];
      WriterStands(t.rb.State(), t.v);
      if Opened(t.v, t.circular, Size(records[i]), t.id).Some? {
        more, gone := WroteEntry(t.v, t.circular, records[i], t.id);
      } else {
        NotWritten(t.v, t.circular, records[i], t.id);
      }
      var room := t.CollectRecord(records[i]);
      HeadsFromFrom(v0, v1, t.v);
      if !room {
        return false, added, cut;
      }
      WroteMore(v0, v1, t.v, added, cut, more, gone);
      RecordAdded(added, records, i, more, t.id);
      added, cut := added + more, cut + gone;
    }
    assert records[..|records|] == records;
    ok := true;
  }

  lemma NoneAdded()
    ensures NoHead([]) && Records([]) == [] && Mems([]) == []
  {
  }

  // ----- all CPUs -----

  ghost function ViewsOf(ts: seq<Tracer>): (views: seq<View>)
    reads ts
    ensures |views| == |ts| && forall c :: 0 <= c < |views| ==> views[c] == ts[c].v
  {
    seq(|ts|, c requires 0 <= c < |ts| reads ts => ts[c].v)
  }

  /** Every CPU has its own ring; all share one clock, and no id is on two rings. */
  ghost predicate AllTracing(ts: seq<Tracer>, clock: Clock)
    reads clock, ts, set c | 0 <= c < |ts| :: ts[c].rb
  {
    && (forall c :: 0 <= c < |ts| ==>
          ts[c].clock == clock && Rep(ts[c].rb.State(), ts[c].v) && InOrder(ts[c].v, ts[c].id, clock.count))
    && (forall c, d :: 0 <= c < d < |ts| ==> ts[c] != ts[d] && ts[c].rb != ts[d].rb)
    && Mergeable(HeadLists(ViewsOf(ts)))
  }

  /** The newest id on any CPU is the last of the merge. */
  lemma {:induction false} NewestIsLast(lists: seq<seq<nat>>, id: nat)
    requires Mergeable(lists) && InSome(lists, id) && forall x: nat :: InSome(lists, x) ==> x <= id
    ensures Merged(lists) != [] && Merged(lists)[|Merged(lists)| - 1] == id
  {
    MergedInOrder(lists);
    hide Merged, Mergeable, InSome;
    var all := Merged(lists);
    var i :| 0 <= i < |all| && all[i] == id;
    assert all[|all| - 1] in all;
  }

  /** The rings as values, for the reader. */
  method Snapshot(ts: seq<Tracer>) returns (rbs: seq<Rb>)
    ensures |rbs| == |ts| && forall c :: 0 <= c < |ts| ==> rbs[c] == ts[c].rb.State()
  {
    rbs := [];
    for c := 0 to |ts|
      invariant |rbs| == c && forall d :: 0 <= d < c ==> rbs[d] == ts[d].rb.State()
    {
      var rb := ts[c].rb;
      rbs := rbs + [Rb(rb.next, rb.prev, rb.mem, rb.w, rb.r)];
    }
  }

  lemma IdBelow(v: View, last: nat, clock: nat, id: nat)
    requires InOrder(v, last, clock) && id in Heads(Content(v))
    ensures id <= clock
  {
  }

  lemma OthersInOrder(ts: seq<Tracer>, k: nat, clock: Clock, before: nat)
    requires k < |ts| && before <= clock.count
    requires forall c :: 0 <= c < |ts| && c != k ==> InOrder(ts[c].v, ts[c].id, before)
    ensures forall c :: 0 <= c < |ts| && c != k ==> InOrder(ts[c].v, ts[c].id, clock.count)
  {
    hide InOrder;
    forall c | 0 <= c < |ts| && c != k ensures InOrder(ts[c].v, ts[c].id, clock.count) {
      LaterClock(ts[c].v, ts[c].id, before, clock.count);
    }
  }

  lemma HeadsFromAny(v: View, v': View, id: nat)
    requires HeadsFrom(v, v', None)
    ensures HeadsFrom(v, v', Some(id))
  {
  }

  /** Only CPU k has changed since `views`. */
  lemma {:induction false} OneMoreView(ts: seq<Tracer>, views: seq<View>, k: nat, clock: Clock, before: nat)
    requires |views| == |ts| && k < |ts| && before <= clock.count <= before + 1
    requires forall c :: 0 <= c < |ts| && c != k ==> ts[c].v == views[c]
    requires InOrder(ts[k].v, ts[k].id, clock.count) && HeadsFrom(views[k], ts[k].v, Some(before + 1))
    requires Mergeable(HeadLists(views))
    requires forall c, id :: 0 <= c < |views| && id in Heads(Content(views[c])) ==> id <= before
    ensures Mergeable(HeadLists(ViewsOf(ts)))
  {
    hide Mergeable, Heads, Content, HeadsFrom, InOrder;
    LaterClock(ts[k].v, ts[k].id, clock.count, before + 1);
    ViewsMergeable(views, k, ts[k].v, ts[k].id, before);
    assert ViewsOf(ts) == views[k := ts[k].v];
  }

  /** No id on any CPU is beyond the clock. */
  lemma AllBelow(ts: seq<Tracer>, clock: Clock)
    requires AllTracing(ts, clock)
    ensures forall c, id :: 0 <= c < |ts| && id in Heads(Content(ViewsOf(ts)[c])) ==> id <= clock.count
  {
    hide Rep, Content, Heads, Mergeable, InOrder, HeadLists;
    forall c, id | 0 <= c < |ts| && id in Heads(Content(ts[c].v)) ensures id <= clock.count {
      IdBelow(ts[c].v, ts[c].id, clock.count, id);
    }
  }

  /** The frame's head on CPU k. */
  method BeginFrame(ts: seq<Tracer>, k: nat, clock: Clock, num: nat)
    returns (begun: bool, ghost h: Entry, ghost cut: seq<Entry>)
    requires AllTracing(ts, clock) && k < |ts|
    modifies clock, ts[k], ts[k].rb
    ensures AllTracing(ts, clock) && clock.count == old(clock.count) + (if begun then 1 else 0)
    ensures begun ==>
      && h.Head? && h.id == clock.count == ts[k].id && h.num == num && ts[k].Valid() && ts[k].InFrame()
      && Wrote(old(ts[k].v), ts[k].v, [h], cut) && (ts[k].circular || cut == [])
    ensures !begun ==> ts[k].v == old(ts[k].v)
  {
    hide Rep, Content, WrittenView, RingOf, Opened, Ordered, FrameAfter, Wrote;
    hide Flat, Heads, Mergeable, HeadsFrom, InOrder, HeadLists;
    var t := ts[k];
    h, cut := Head(clock.count + 1, num, t.rb.prevFrame), [];
    WriterStands(t.rb.State(), t.v);
    ghost var views, before, more := ViewsOf(ts), clock.count, [];
    AllBelow(ts, clock);
    if Opened(t.v, t.circular, 28, 0).Some? {
      more, cut := WroteEntry(t.v, t.circular, h, 0);
    } else {
      NotWritten(t.v, t.circular, h, 0);
    }
    begun := t.ActionHead(num);
    OthersInOrder(ts, k, clock, before);
    OneMoreView(ts, views, k, clock, before);
  }

  /** What CPU k holds: a new frame's head, then its part with the blocks that tile the range read, then
      later frames.  No other CPU has the id. */
  ghost predicate CollectedOn(views: seq<View>, k: nat, h: Entry, kept: seq<Entry>, part: seq<Entry>, later: seq<Entry>,
                              cut: seq<Entry>, addr: nat, size: nat, memory: Memory) {
    && k < |views| && h.Head? && Lacks(kept, h.id) && NoHead(part) && Starts(later) && Lacks(later, h.id)
    && kept + [h] + part + later == cut + Content(views[k])
    && Tiled(Mems(part), addr, size, memory)
    && forall c :: 0 <= c < |views| && c != k ==> h.id !in Heads(Content(views[c]))
  }

  lemma {:induction false} CollectedNow(views: seq<View>, k: nat, v0: View, h: Entry, part: seq<Entry>, cut: seq<Entry>,
                                        addr: nat, size: nat, memory: Memory, before: nat)
    requires k < |views| && h.Head? && h.id == before + 1 && NoHead(part) && Tiled(Mems(part), addr, size, memory)
    requires Wrote(v0, views[k], [h] + part, cut)
    requires forall x :: x in Heads(Content(v0)) ==> x <= before
    requires forall c, x :: 0 <= c < |views| && c != k && x in Heads(Content(views[c])) ==> x <= before
    ensures CollectedOn(views, k, h, Content(v0), part, [], cut, addr, size, memory)
  {
    hide Content, Heads, Mems, Tiled;
    LacksOthers(Content(v0), h.id);
    assert Content(v0) + [h] + part + [] == Content(v0) + ([h] + part);
  }

  /** A frame on CPU k: records, one memory collection, and records again. */
  method Collect(ts: seq<Tracer>, k: nat, clock: Clock, num: nat, first: seq<Entry>, addr: nat, size: nat, memory: Memory,
                 last: seq<Entry>)
    returns (collected: bool, ghost h: Entry, ghost kept: seq<Entry>, ghost part: seq<Entry>, ghost cut: seq<Entry>)
    requires AllTracing(ts, clock) && k < |ts|
    requires Recordable(first) && NoMemory(first) && Recordable(last) && NoMemory(last)
    modifies clock, ts[k], ts[k].rb
    ensures AllTracing(ts, clock) && clock.count <= old(clock.count) + 1
    ensures collected ==>
      && clock.count == old(clock.count) + 1 == ts[k].id && h.Head? && h.id == ts[k].id && h.num == num
      && kept == old(Content(ts[k].v)) && (ts[k].circular || cut == [])
      && CollectedOn(ViewsOf(ts), k, h, kept, part, [], cut, addr, size, memory)
  {
    hide Rep, Content, WrittenView, RingOf, Opened, Ordered, NoHead, FrameAfter, CollectedOn, Wrote, Records;
    hide Flat, Tiled, OnlyBlocks, Mems, Heads, Mergeable, HeadsFrom, InOrder, HeadLists;
    ghost var v0, count0 := ts[k].v, clock.count;
    kept, part, cut := Content(v0), [], [];
    AllBelow(ts, clock);
    var begun;
    begun, h, cut := BeginFrame(ts, k, clock, num);
    if !begun {
      return false, h, kept, part, cut;
    }
    ghost var views, v1 := ViewsOf(ts), ts[k].v;
    AllBelow(ts, clock);
    var done;
    done, part, cut := FillFrame(ts[k], v0, h, cut, first, addr, size, memory, last);
    HeadsFromAny(views[k], ts[k].v, clock.count + 1);
    OneMoreView(ts, views, k, clock, clock.count);
    if done {
      CollectedNow(ViewsOf(ts), k, v0, h, part, cut, addr, size, memory, count0);
    }
    return done, h, kept, part, cut;
  }

  /** What follows the head. */
  method FillFrame(t: Tracer, ghost v0: View, ghost h: Entry, ghost cut0: seq<Entry>, first: seq<Entry>, addr: nat,
                   size: nat, memory: Memory, last: seq<Entry>)
    returns (done: bool, ghost part: seq<Entry>, ghost cut: seq<Entry>)
    requires t.Valid() && t.InFrame() && Wrote(v0, t.v, [h], cut0) && (t.circular || cut0 == [])
    requires Recordable(first) && NoMemory(first) && Recordable(last) && NoMemory(last)
    modifies t`v, t.rb
    ensures t.Valid() && HeadsFrom(old(t.v), t.v, None)
    ensures done ==>
      && Wrote(v0, t.v, [h] + part, cut) && (t.circular || cut == [])
      && NoHead(part) && Tiled(Mems(part), addr, size, memory)
  {
    hide Rep, Content, NoHead, Wrote, Records, Tiled, OnlyBlocks, Mems, Heads, HeadsFrom, InOrder, RingOf;
    part, cut := [], cut0;
    ghost var v1, before, between, after, gone;
    v1 := t.v;
    done, before, gone := AddRecords(t, first);
    if !done {
      return;
    }
    WroteMore(v0, v1, t.v, [h], cut, before, gone);
    cut := cut + gone;
    ghost var v2 := t.v;
    var result;
    result, between, gone := t.MemoryRead(addr, size, memory);
    HeadsFromFrom(v1, v2, t.v);
    if result != Done {
      done := false;
      return;
    }
    WroteBlocks(v2, t.v, between, gone);
    WroteMore(v0, v2, t.v, [h] + before, cut, between, gone);
    NoHeadInBlocks(t.id, between);
    cut := cut + gone;
    ghost var v3 := t.v;
    done, after, gone := AddRecords(t, last);
    HeadsFromFrom(v1, v3, t.v);
    WroteMore(v0, v3, t.v, [h] + before + between, cut, after, gone);
    cut, part := cut + gone, before + between + after;
    PartTogether(h, before, between, after);
  }

  lemma WroteBlocks(v: View, v': View, more: seq<Entry>, cut: seq<Entry>)
    requires Content(v) + more == cut + Content(v')
    ensures Wrote(v, v', more, cut)
  {
  }

  lemma {:induction false} PartTogether(h: Entry, before: seq<Entry>, between: seq<Entry>, after: seq<Entry>)
    requires NoHead(before) && NoHead(between) && NoHead(after) && Mems(before) == [] && Mems(after) == []
    ensures var part := before + between + after;
            [h] + before + between + after == [h] + part && NoHead(part) && Mems(part) == Mems(between)
  {
    MemsConcat(before + between, after);
    MemsConcat(before, between);
  }

  // ----- later frames, on any CPU -----

  /** A frame of CPU `cpu`. */
  datatype Later = Later(cpu: nat, num: nat, records: seq<Entry>)

  /** Since `views0` each CPU has written frames newer than `id`, and has discarded `cut`. */
  ghost predicate Since(views0: seq<View>, views: seq<View>, more: seq<seq<Entry>>, cut: seq<seq<Entry>>, id: nat) {
    && |views0| == |views| == |more| == |cut|
    && forall c :: 0 <= c < |views| ==>
         Wrote(views0[c], views[c], more[c], cut[c]) && Starts(more[c]) && NewerThan(more[c], id)
  }

  ghost predicate NewerThan(more: seq<Entry>, id: nat) {
    forall x :: x in Heads(more) ==> id < x
  }

  lemma {:induction false} SinceStep(views0: seq<View>, views1: seq<View>, views: seq<View>, more: seq<seq<Entry>>,
                                     cut: seq<seq<Entry>>, id: nat, k: nat, m: seq<Entry>, g: seq<Entry>)
    requires Since(views0, views1, more, cut, id) && k < |views1| == |views|
    requires forall c :: 0 <= c < |views| && c != k ==> views[c] == views1[c]
    requires Wrote(views1[k], views[k], m, g) && Starts(m) && NewerThan(m, id)
    ensures Since(views0, views, more[k := more[k] + m], cut[k := cut[k] + g], id)
  {
    hide Wrote, Heads;
    WroteMore(views0[k], views1[k], views[k], more[k], cut[k], m, g);
    HeadsSuffix(more[k], m);
  }

  lemma {:induction false} SinceStart(views: seq<View>, id: nat)
    ensures var none: seq<seq<Entry>> := seq(|views|, c => []); Since(views, views, none, none, id)
  {
    hide Content, Wrote;
    forall c | 0 <= c < |views| ensures Wrote(views[c], views[c], [], []) && NewerThan([], id) {
      WroteNothing(views[c]);
    }
  }

  /** One of them. */
  method AddFrame(ts: seq<Tracer>, clock: Clock, f: Later) returns (ghost more: seq<Entry>, ghost cut: seq<Entry>)
    requires AllTracing(ts, clock) && f.cpu < |ts| && Recordable(f.records)
    modifies clock, ts[f.cpu], ts[f.cpu].rb
    ensures AllTracing(ts, clock) && old(clock.count) <= clock.count <= old(clock.count) + 1
    ensures Wrote(old(ts[f.cpu].v), ts[f.cpu].v, more, cut) && (ts[f.cpu].circular || cut == [])
    ensures Starts(more) && NewerThan(more, old(clock.count))
  {
    hide Rep, Content, WrittenView, RingOf, Opened, Ordered, NoHead, FrameAfter, Wrote, Records;
    hide Flat, Mems, Heads, Mergeable, HeadsFrom, InOrder, HeadLists, NewerThan;
    var k := f.cpu;
    more, cut := [], [];
    ghost var v0, id0 := ts[k].v, clock.count;
    WroteNothing(v0);
    NothingNewer(id0);
    ghost var h, gone;
    var begun;
    begun, h, gone := BeginFrame(ts, k, clock, f.num);
    if !begun {
      return;
    }
    ghost var views, v1, added, gone' := ViewsOf(ts), ts[k].v, [], [];
    AllBelow(ts, clock);
    var ok;
    ok, added, gone' := AddRecords(ts[k], f.records);
    HeadsFromAny(views[k], ts[k].v, clock.count + 1);
    OneMoreView(ts, views, k, clock, clock.count);
    WroteMore(v0, v1, ts[k].v, [h], gone, added, gone');
    more, cut := [h] + added, gone + gone';
    OneNewer(h, added, id0);
  }

  lemma NothingNewer(id: nat)
    ensures Starts([]) && NewerThan([], id)
  {
  }

  lemma OneNewer(h: Entry, added: seq<Entry>, id: nat)
    requires h.Head? && id < h.id && NoHead(added)
    ensures Starts([h] + added) && NewerThan([h] + added, id)
  {
    FrameFirst(h, added, []);
    assert [h] + added + [] == [h] + added;
  }

  /** Frames one after the other. */
  method AddFrames(ts: seq<Tracer>, clock: Clock, frames: seq<Later>)
    returns (ghost more: seq<seq<Entry>>, ghost cut: seq<seq<Entry>>)
    requires AllTracing(ts, clock)
    requires forall i :: 0 <= i < |frames| ==> frames[i].cpu < |ts| && Recordable(frames[i].records)
    modifies clock, ts, set c | 0 <= c < |ts| :: ts[c].rb
    ensures AllTracing(ts, clock) && old(clock.count) <= clock.count <= old(clock.count) + |frames|
    ensures Since(old(ViewsOf(ts)), ViewsOf(ts), more, cut, old(clock.count)) && |more| == |cut| == |ts|
    ensures forall c :: 0 <= c < |ts| ==> ts[c].circular || cut[c] == []
    ensures frames == [] ==> ViewsOf(ts) == old(ViewsOf(ts)) && forall c :: 0 <= c < |ts| ==> more[c] == []
  {
    hide AllTracing, Since, Wrote, NewerThan, Starts;
    ghost var views0, id0 := ViewsOf(ts), clock.count;
    more, cut := seq(|ts|, c => []), seq(|ts|, c => []);
    SinceStart(views0, id0);
    for i := 0 to |frames|
      invariant AllTracing(ts, clock) && id0 <= clock.count <= id0 + i
      invariant Since(views0, ViewsOf(ts), more, cut, id0) && |more| == |cut| == |ts|
      invariant forall c :: 0 <= c < |ts| ==> ts[c].circular || cut[c] == []
      invariant i == 0 ==> ViewsOf(ts) == views0 && forall c :: 0 <= c < |ts| ==> more[c] == []
    {
      ghost var views1, m, g := ViewsOf(ts), [], [];
      ghost var id1 := clock.count;
      Apart(ts, clock);
      m, g := AddFrame(ts, clock, frames[i]);
      StillNewer(m, id1, id0);
      SinceStep(views0, views1, ViewsOf(ts), more, cut, id0, frames[i].cpu, m, g);
      more, cut := more[frames[i].cpu := more[frames[i].cpu] + m], cut[frames[i].cpu := cut[frames[i].cpu] + g];
    }
  }

  lemma Apart(ts: seq<Tracer>, clock: Clock)
    requires AllTracing(ts, clock)
    ensures forall c, d :: 0 <= c < d < |ts| ==> ts[c] != ts[d]
  {
  }

  lemma StillNewer(more: seq<Entry>, id: nat, id0: nat)
    requires NewerThan(more, id) && id0 <= id
    ensures NewerThan(more, id0)
  {
  }

  /** After later frames the frame collected is still followed by its part, where it is still held. */
  lemma {:induction false} CollectedLater(views1: seq<View>, views: seq<View>, more: seq<seq<Entry>>, cuts: seq<seq<Entry>>,
                                          k: nat, h: Entry, kept: seq<Entry>, part: seq<Entry>, cut: seq<Entry>,
                                          addr: nat, size: nat, memory: Memory)
    requires CollectedOn(views1, k, h, kept, part, [], cut, addr, size, memory) && Since(views1, views, more, cuts, h.id)
    ensures CollectedOn(views, k, h, kept, part, more[k], cut + cuts[k], addr, size, memory)
  {
    hide Content, Heads, Mems, Tiled;
    assert kept + [h] + part + [] == kept + [h] + part;
    assert kept + [h] + part + more[k] == (cut + Content(views1[k])) + more[k] == cut + (Content(views1[k]) + more[k]);
    assert cut + (cuts[k] + Content(views[k])) == (cut + cuts[k]) + Content(views[k]);
    LacksOthers(more[k], h.id);
    forall c | 0 <= c < |views| && c != k ensures h.id !in Heads(Content(views[c])) {
      StillNotThere(views1[c], views[c], more[c], cuts[c], h.id);
    }
  }

  lemma {:induction false} StillNotThere(v: View, v': View, more: seq<Entry>, cut: seq<Entry>, id: nat)
    requires Wrote(v, v', more, cut) && NewerThan(more, id) && id !in Heads(Content(v))
    ensures id !in Heads(Content(v'))
  {
    hide Content, Heads;
    HeadsSuffix(Content(v), more);
    HeadsSuffix(cut, Content(v'));
    assert Heads(cut) + Heads(Content(v')) == Heads(Content(v)) + Heads(more);
    assert id !in Heads(Content(v)) + Heads(more);
  }

  /** The `m` packet for the current frame: its memory blocks are copied over the window. */
  method MPacket(reader: Reader, addr: nat, buffer: array<Octet>) returns (ok: bool)
    requires reader.Valid() && reader.AtFrame()
    modifies buffer
    ensures var blocks := Mems(FramePart(Flat(old(reader.rest)[old(reader.current).value])));
            && AllBlocks(blocks) && buffer[..] == Overlay(old(buffer[..]), addr, blocks)
            && (ok <==> Touches(blocks, addr, buffer.Length))
  {
    hide Rep, Content, Ordered, Merged, Stands, Flat, Mems, FramePart, Overlay, PlaceOk, Touches, AllBlocks, FollowsHead;
    hide Mergeable, HeadLists, EndsIn, HeadsOf, Readable;
    var c := reader.current.value;
    ghost var rest := reader.rest[c];
    PlaceStands(reader.rbs[c], reader.rp[c].value, 0, rest, reader.pages[c]);
    BehindHeadOrdered(reader.rbs[c], reader.views[c], reader.currentId, reader.currentTpe, Flat(rest));
    ok := ReadBack(reader.rbs[c], reader.rp[c].value, reader.currentId, addr, buffer, false, rest, reader.pages[c]);
  }

  /** Select frame `n` and read a window of it. */
  method SelectAndRead(rbs: seq<Rb>, n: nat, addr: nat, buffer: array<Octet>, ghost views: seq<View>)
    returns (selected: bool, id: nat, ok: bool, ghost c: nat, ghost num: nat, ghost left: seq<Entry>)
    requires |views| == |rbs| && forall c :: 0 <= c < |rbs| ==> Readable(rbs[c], views[c])
    requires Mergeable(HeadLists(views))
    modifies buffer
    ensures selected <==> n < |Merged(HeadLists(views))|
    ensures selected ==>
      && id == Merged(HeadLists(views))[n] && c < |views| && FollowsHead(Content(views[c]), id, num, left)
      && AllBlocks(Mems(FramePart(left))) && buffer[..] == Overlay(old(buffer[..]), addr, Mems(FramePart(left)))
      && (ok <==> Touches(Mems(FramePart(left)), addr, buffer.Length))
  {
    hide Content, Merged, Flat, Mems, FramePart, Overlay, Touches, AllBlocks, FollowsHead, Mergeable, HeadLists, Readable;
    hide PlaceOk, EndsIn, HeadsOf, Within;
    id, ok, c, num, left := 0, false, 0, 0, [];
    var reader := new Reader(rbs, views);
    var ret := reader.FindNum(n);
    selected := ret == 0;
    if selected {
      id := reader.currentId;
      c, num := reader.current.value, reader.currentTpe;
      left := Flat(reader.rest[c]);
      ok := MPacket(reader, addr, buffer);
    }
  }

  /** If the frame selected is the one collected, the window shows the memory. */
  method ReadCollected(rbs: seq<Rb>, n: nat, own: nat, window: nat, buffer: array<Octet>, ghost views: seq<View>,
                       ghost k: nat, ghost h: Entry, ghost kept: seq<Entry>, ghost part: seq<Entry>, ghost later: seq<Entry>,
                       ghost cut: seq<Entry>, ghost addr: nat, ghost size: nat, ghost memory: Memory)
    returns (found: bool, ok: bool)
    requires |views| == |rbs| && forall c :: 0 <= c < |rbs| ==> Readable(rbs[c], views[c])
    requires Mergeable(HeadLists(views)) && CollectedOn(views, k, h, kept, part, later, cut, addr, size, memory)
    requires own == h.id
    requires addr <= window && window + buffer.Length <= addr + size
    modifies buffer
    ensures found <==> n < |Merged(HeadLists(views))| && Merged(HeadLists(views))[n] == own
    ensures found ==>
      && CanRead(memory, window, buffer.Length) && buffer[..] == Bytes(memory, window, buffer.Length)
      && (buffer.Length > 0 ==> ok)
  {
    hide Content, Lacks, NoHead, Merged, Tiled, Mems, FramePart, Overlay, Touches, AllBlocks, CanRead, Bytes;
    hide Mergeable, HeadLists, Heads, FollowsHead, Readable, CollectedOn;
    var selected, id;
    ghost var c, tpe, left;
    selected, id, ok, c, tpe, left := SelectAndRead(rbs, n, window, buffer, views);
    found := selected && id == own;
    if found {
      SelectedFrame(views, k, c, h, kept, part, later, cut, addr, size, memory, tpe, left);
      PartReadBack(part, addr, size, memory, window, old(buffer[..]));
    }
  }

  /** Collect on CPU k, let frames on any CPU follow, select frame `n` among the frames of all CPUs, read
      a window.  If the frame selected is the one collected, the packet returns the bytes that were
      read from memory, however many pages they span and whatever was discarded in between.  Without
      circular mode the frame is one of the merge, the last if none followed. */
  method Trip(ts: seq<Tracer>, k: nat, clock: Clock, num: nat, first: seq<Entry>, addr: nat, size: nat, memory: Memory,
              last: seq<Entry>, frames: seq<Later>, n: nat, window: nat, buffer: array<Octet>)
    returns (collected: bool, found: bool, ok: bool, ghost id: nat)
    requires AllTracing(ts, clock) && k < |ts| && clock.count + 1 + |frames| < ULLONG_MAX
    requires Recordable(first) && NoMemory(first) && Recordable(last) && NoMemory(last)
    requires forall i :: 0 <= i < |frames| ==> frames[i].cpu < |ts| && Recordable(frames[i].records)
    requires addr <= window && window + buffer.Length <= addr + size
    modifies clock, ts, set c | 0 <= c < |ts| :: ts[c].rb
    modifies buffer
    ensures AllTracing(ts, clock)
    ensures found ==>
      && collected && CanRead(memory, window, buffer.Length) && buffer[..] == Bytes(memory, window, buffer.Length)
      && (buffer.Length > 0 ==> ok)
    ensures collected ==>
      var all := Merged(HeadLists(ViewsOf(ts)));
      && (found <==> n < |all| && all[n] == id)
      && (!ts[k].circular ==> id in all && (frames == [] ==> all[|all| - 1] == id))
  {
    hide AllTracing, Merged, Mergeable, HeadLists, Heads, Readable, CollectedOn, CanRead, Bytes, Since, Content;
    found, ok, id := false, false, 0;
    ghost var h, kept, part, cut;
    collected, h, kept, part, cut := Collect(ts, k, clock, num, first, addr, size, memory, last);
    if !collected {
      return;
    }
    id := h.id;
    var own := ts[k].id;
    ghost var views1 := ViewsOf(ts);
    ghost var more, cuts := AddFrames(ts, clock, frames);
    ghost var views := ViewsOf(ts);
    CollectedLater(views1, views, more, cuts, k, h, kept, part, cut, addr, size, memory);
    var rbs := Snapshot(ts);
    TracingReads(ts, clock, rbs);
    if !ts[k].circular {
      NothingCut(cut, cuts[k]);
      Remains(views, k, h, kept, part, more[k], cut + cuts[k], addr, size, memory);
      if frames == [] {
        AllBelow(ts, clock);
        NewestIsLast(HeadLists(views), h.id);
      }
    }
    found, ok := ReadCollected(rbs, n, own, window, buffer, views, k, h, kept, part, more[k], cut + cuts[k], addr,
                               size, memory);
  }

  lemma NothingCut(cut: seq<Entry>, cut': seq<Entry>)
    requires cut == [] && cut' == []
    ensures cut + cut' == []
  {
  }

  lemma TracingReads(ts: seq<Tracer>, clock: Clock, rbs: seq<Rb>)
    requires AllTracing(ts, clock) && clock.count < ULLONG_MAX && |rbs| == |ts|
    requires forall c :: 0 <= c < |ts| ==> rbs[c] == ts[c].rb.State()
    ensures forall c :: 0 <= c < |ts| ==> Readable(rbs[c], ViewsOf(ts)[c])
    ensures Mergeable(HeadLists(ViewsOf(ts)))
  {
    hide Rep, InOrder, Mergeable, HeadLists, Readable;
    forall c | 0 <= c < |ts| ensures Readable(rbs[c], ViewsOf(ts)[c]) {
      OrderIsReadable(rbs[c], ts[c].v, ts[c].id, clock.count);
    }
  }

  lemma OrderIsReadable(rb: Rb, v: View, last: nat, clock: nat)
    requires Rep(rb, v) && InOrder(v, last, clock) && clock < ULLONG_MAX
    ensures Readable(rb, v)
  {
  }

  lemma {:induction false} PartReadBack(part: seq<Entry>, addr: nat, size: nat, memory: Memory, window: nat,
                                        buffer: seq<Octet>)
    requires NoHead(part) && Tiled(Mems(part), addr, size, memory)
    requires addr <= window && window + |buffer| <= addr + size
    ensures CanRead(memory, window, |buffer|) && AllBlocks(Mems(part))
    ensures Overlay(buffer, window, Mems(part)) == Bytes(memory, window, |buffer|)
    ensures |buffer| > 0 ==> Touches(Mems(part), window, |buffer|)
  {
    MemsAreBlocks(part);
    hide *;
    WindowExact(Mems(part), addr, size, memory, window, buffer);
  }

  /** The frame selected is the one collected: it is on CPU k, and what belongs to it is the part. */
  lemma {:induction false} SelectedFrame(views: seq<View>, k: nat, c: nat, h: Entry, kept: seq<Entry>, part: seq<Entry>,
                                         later: seq<Entry>, cut: seq<Entry>, addr: nat, size: nat, memory: Memory,
                                         num: nat, left: seq<Entry>)
    requires CollectedOn(views, k, h, kept, part, later, cut, addr, size, memory) && c < |views|
    requires FollowsHead(Content(views[c]), h.id, num, left)
    ensures c == k && FramePart(left) == part && NoHead(part) && Tiled(Mems(part), addr, size, memory)
  {
    hide Lacks, NoHead, Content, Heads, Mems, Tiled;
    var whole := Content(views[c]);
    var at := |whole| - |left| - 1;
    HeadIsIn(whole, at);
    assert c == k;
    var passed := whole[..at];
    assert whole == passed + ([whole[at]] + left);
    SameFrame(kept, h, part, later, cut, passed, whole[at], left);
    FramePartUpTo(part, later);
  }

  /** Nothing was cut: the frame is there. */
  lemma {:induction false} Remains(views: seq<View>, k: nat, h: Entry, kept: seq<Entry>, part: seq<Entry>,
                                   later: seq<Entry>, cut: seq<Entry>, addr: nat, size: nat, memory: Memory)
    requires CollectedOn(views, k, h, kept, part, later, cut, addr, size, memory) && cut == []
    requires Mergeable(HeadLists(views))
    ensures InSome(HeadLists(views), h.id) && h.id in Merged(HeadLists(views))
  {
    hide Content, Heads, Mergeable, Merged, Lacks, NoHead, Tiled, Mems;
    assert [] + Content(views[k]) == Content(views[k]);
    assert Content(views[k])[|kept|] == h;
    HeadIsIn(Content(views[k]), |kept|);
    var lists := HeadLists(views);
    assert h.id in lists[k];
    MergedInOrder(lists);
  }
}
