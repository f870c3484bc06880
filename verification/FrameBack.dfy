/**
 Stepping back: each frame head holds the address of the head before it, and gtp_rb_walk_reverse
 follows it.  Runs without circular mode and without a page taken out, from a reset.
 */
module FrameBack {
  import opened Options
  import opened PageRing
  import opened PageRuns
  import opened FrameCollect

  /** The heads on a page: their addresses and the links back they hold. */
  function HeadsOn(page: Page, start: int, entries: seq<Entry>): seq<(Addr, Option<Addr>)>
    decreases |entries|
  {
    if entries == [] then []
    else
      (if entries[0].Head? then [(Addr(page, start), entries[0].prev)] else [])
      + HeadsOn(page, start + Size(entries[0]), entries[1..])
  }

  function HeadsIn(region: seq<PageLog>): seq<(Addr, Option<Addr>)> {
    if region == [] then []
    else
      var p := region[|region| - 1];
      HeadsIn(region[..|region| - 1]) + HeadsOn(p.page, p.start, p.entries)
  }

  /** gtp_rb_walk_reverse. */
  function WalkReverse(mem: map<Addr, Entry>, at: Addr, begin: Addr): Option<Addr>
    requires at in mem && mem[at].Head?
  {
    if at == begin then None else mem[at].prev
  }

  /** The link back of a list of heads ending where `last` says. */
  function LastOf(list: seq<(Addr, Option<Addr>)>): Option<Addr> {
    if list == [] then None else Some(list[|list| - 1].0)
  }

  predicate BackLinked(list: seq<(Addr, Option<Addr>)>) {
    forall i :: 0 <= i < |list| ==> list[i].1 == LastOf(list[..i])
  }

  /** Every head links back to the one before; the first is at `r`; prev_frame is the last.  An
      empty buffer is at the start of a page. */
  predicate Chained(v: View, prevFrame: Option<Addr>) {
    && v.region != []
    && var list := HeadsIn(v.region);
    && BackLinked(list) && LastOf(list) == prevFrame
    && (list != [] ==> list[0].0 == Addr(v.region[0].page, v.region[0].start))
    && (list == [] ==> v.region == [PageLog(v.region[0].page, DATA, [])])
  }

  lemma {:induction false} HeadsOnGrow(page: Page, start: int, entries: seq<Entry>, e: Entry)
    ensures HeadsOn(page, start, entries + [e])
         == HeadsOn(page, start, entries) + if e.Head? then [(Addr(page, EndOff(start, entries)), e.prev)] else []
    decreases |entries|
  {
    if entries == [] {
      assert (entries + [e])[1..] == [];
    } else {
      assert (entries + [e])[1..] == entries[1..] + [e];
      HeadsOnGrow(page, start + Size(entries[0]), entries[1..], e);
    }
  }

  lemma AppendedHeads(v: View, e: Entry)
    requires v.region != []
    ensures HeadsIn(Appended(v, e).region)
         == HeadsIn(v.region)
          + if e.Head? then [(Addr(Current(v).page, EndOf(Current(v))), e.prev)] else []
  {
    var last := |v.region| - 1;
    var region' := Appended(v, e).region;
    assert region'[..last] == v.region[..last];
    HeadsOnGrow(v.region[last].page, v.region[last].start, v.region[last].entries, e);
  }

  lemma TurnedHeads(v: View)
    requires v.free != []
    ensures HeadsIn(OnNewPage(v).region) == HeadsIn(v.region)
  {
    var region' := OnNewPage(v).region;
    assert region'[..|region'| - 1] == v.region;
  }

  /** Where a written entry ends up: just before `w`. */
  lemma WrittenHeads(v: View, e: Entry, id: nat)
    requires v.region != [] && |RingOf(v)| >= 2 && Size(e) <= DATA_MAX && Opened(v, false, Size(e), id).Some?
    ensures var v' := WrittenView(v, false, e, id);
            && v'.region != []
            && HeadsIn(v'.region) == HeadsIn(v.region)
                 + (if e.Head? then [(Addr(Current(v').page, EndOf(Current(v')) - Size(e)), e.prev)] else [])
            && v'.region[0].page == v.region[0].page && v'.region[0].start == v.region[0].start
            && (Room(v, Size(e)) ==> v' == Appended(v, e))
  {
    hide HeadsIn, HeadsOn, EndOff;
    var o := Opened(v, false, Size(e), id).value;
    AppendedHeads(o, e);
    EndGrowsBy(Current(o).start, Current(o).entries, e);
    if !Room(v, Size(e)) {
      TurnedHeads(v);
      AppendedHeads(OnNewPage(v), PageBegin(id));
    }
  }

  lemma BackGrows(list: seq<(Addr, Option<Addr>)>, at: Addr)
    requires BackLinked(list)
    ensures BackLinked(list + [(at, LastOf(list))]) && LastOf(list + [(at, LastOf(list))]) == Some(at)
  {
    var list' := list + [(at, LastOf(list))];
    forall i | 0 <= i < |list'|
      ensures list'[i].1 == LastOf(list'[..i])
    {
      assert list'[..i] == if i < |list| then list[..i] else list;
    }
  }

  /** In an empty buffer the first head goes where `r` is. */
  lemma FirstHeadFits(v: View, e: Entry)
    requires v.region != [] && e.Head?
    requires v.region == [PageLog(v.region[0].page, DATA, [])]
    ensures Room(v, 28) && EndOf(Current(Appended(v, e))) == DATA + 28
  {
    EndGrowsBy(DATA, [], e);
  }

  /** A new frame, linked to the one before. */
  lemma HeadKeepsChain(v: View, prevFrame: Option<Addr>, id: nat, num: nat)
    requires Chained(v, prevFrame) && |RingOf(v)| >= 2
    ensures var e := Head(id, num, prevFrame);
            var v' := WrittenView(v, false, e, 0);
            if Opened(v, false, 28, 0).None? then v' == v
            else v'.region != [] && Chained(v', Some(Addr(Current(v').page, EndOf(Current(v')) - 28)))
  {
    hide HeadsIn, HeadsOn, BackLinked, EndOff;
    var e := Head(id, num, prevFrame);
    if Opened(v, false, 28, 0).Some? {
      if HeadsIn(v.region) == [] {
        FirstHeadFits(v, e);
      }
      WrittenHeads(v, e, 0);
      hide Opened, Appended;
      var v' := WrittenView(v, false, e, 0);
      BackGrows(HeadsIn(v.region), Addr(Current(v').page, EndOf(Current(v')) - 28));
    }
  }

  /** A record of the frame going on leaves the heads and the first page as they are. */
  lemma {:induction false} RecordKeepsHeads(v: View, e: Entry, id: nat)
    requires v.region != [] && |RingOf(v)| >= 2 && Record(e) && !e.Head?
    ensures SameHeads(v, WrittenView(v, false, e, id))
  {
    hide HeadsIn, HeadsOn, EndOff;
    if Size(e) <= DATA_MAX && Opened(v, false, Size(e), id).Some? {
      WrittenHeads(v, e, id);
      assert HeadsIn(WrittenView(v, false, e, id).region) == HeadsIn(v.region);
    } else {
      assert WrittenView(v, false, e, id) == v;
    }
  }

  predicate SameHeads(v: View, v': View) {
    && v.region != [] && v'.region != [] && HeadsIn(v'.region) == HeadsIn(v.region)
    && v'.region[0].page == v.region[0].page && v'.region[0].start == v.region[0].start
  }

  lemma {:induction false} ChainKept(v: View, v': View, prevFrame: Option<Addr>)
    requires Chained(v, prevFrame) && prevFrame.Some? && SameHeads(v, v')
    ensures Chained(v', prevFrame)
  {
    hide HeadsIn, HeadsOn, EndOff;
  }

  // ----- what the steps find -----

  /** The heads of the list are in memory where it says. */
  lemma {:induction false} HeadsOnStored(mem: map<Addr, Entry>, page: Page, start: int, entries: seq<Entry>, i: nat)
    requires Cells(mem, page, start, entries) && i < |HeadsOn(page, start, entries)|
    ensures var h := HeadsOn(page, start, entries)[i];
            && h.0 in mem && mem[h.0].Head? && mem[h.0].prev == h.1
            && h.0.page == page && h.0.off >= start && (i > 0 ==> h.0.off > start)
    decreases |entries|
  {
    if entries[0].Head? {
      if i > 0 {
        HeadsOnStored(mem, page, start + Size(entries[0]), entries[1..], i - 1);
      }
    } else {
      HeadsOnStored(mem, page, start + Size(entries[0]), entries[1..], i);
    }
  }

  lemma {:induction false} HeadsStored(mem: map<Addr, Entry>, region: seq<PageLog>, i: nat)
    requires forall k :: 0 <= k < |region| ==> PageOk(mem, region[k])
    requires forall j, k :: 0 <= j < k < |region| ==> region[j].page != region[k].page
    requires i < |HeadsIn(region)|
    ensures var h := HeadsIn(region)[i];
            && region != [] && h.0 in mem && mem[h.0].Head? && mem[h.0].prev == h.1
            && (i > 0 ==> h.0 != Addr(region[0].page, region[0].start))
    decreases |region|
  {
    var last := |region| - 1;
    var before, p := HeadsIn(region[..last]), region[last];
    if i < |before| {
      HeadsStored(mem, region[..last], i);
    } else {
      assert PageOk(mem, p);
      HeadsOnStored(mem, p.page, p.start, p.entries, i - |before|);
    }
  }

  /** Reverse undoes forward: from any frame's head but the first, the step back gives the head of
      the frame before it; from the first it gives none. */
  lemma ReverseUndoesForward(rb: Rb, v: View, prevFrame: Option<Addr>, i: nat)
    requires Rep(rb, v) && Chained(v, prevFrame) && i < |HeadsIn(v.region)|
    ensures var list := HeadsIn(v.region);
            && list[i].0 in rb.mem && rb.mem[list[i].0].Head?
            && WalkReverse(rb.mem, list[i].0, rb.r) == if i == 0 then None else Some(list[i - 1].0)
  {
    hide Rep, HeadsIn;
    RegionApart(rb, v);
    HeadsStored(rb.mem, v.region, i);
    var list := HeadsIn(v.region);
    assert list[i].1 == LastOf(list[..i]);
  }

  lemma {:induction false} RegionApart(rb: Rb, v: View)
    requires Rep(rb, v)
    ensures v.region != [] && rb.r == Addr(v.region[0].page, v.region[0].start)
    ensures forall k :: 0 <= k < |v.region| ==> PageOk(rb.mem, v.region[k])
    ensures forall j, k :: 0 <= j < k < |v.region| ==> v.region[j].page != v.region[k].page
  {
    var ring := RingOf(v);
    forall j, k | 0 <= j < k < |v.region|
      ensures v.region[j].page != v.region[k].page
    {
      assert ring[j] != ring[k];
    }
  }

  // ----- over whole runs -----

  /** What a CPU's writer does between frames and inside them; a record of no frame is not
      written. */
  datatype Act = Frame(num: nat) | Rec(e: Entry) | Drop(size: nat)

  datatype Writer = Writer(rb: Rb, v: View, prevFrame: Option<Addr>, count: nat)

  ghost predicate Good(s: Writer) {
    Rep(s.rb, s.v) && Chained(s.v, s.prevFrame)
  }

  predicate Allowed(s: Writer, a: Act) {
    && Links(s.rb) && s.v.region != [] && |RingOf(s.v)| >= 2
    && (a.Rec? ==> s.prevFrame.Some? && Record(a.e) && !a.e.Head?)
  }

  /** gtp_action_head, a record, or an allocation given back. */
  function Do(s: Writer, a: Act): Writer
    requires Allowed(s, a)
  {
    match a
    case Frame(num) =>
      var e := Head(s.count + 1, num, s.prevFrame);
      var s' := s.(rb := Written(s.rb, false, e, 0), v := WrittenView(s.v, false, e, 0));
      if Opened(s.v, false, 28, 0).None? then s'
      else s'.(prevFrame := Some(Addr(s'.rb.w.page, s'.rb.w.off - 28)), count := s.count + 1)
    case Rec(e) => s.(rb := Written(s.rb, false, e, s.count), v := WrittenView(s.v, false, e, s.count))
    case Drop(size) => s.(rb := PageRing.Alloc(s.rb, false, size, s.count).0.(w := s.rb.w))
  }

  lemma DoKeepsGood(s: Writer, a: Act)
    requires Good(s) && Allowed(s, a)
    ensures Good(Do(s, a))
  {
    hide Rep, Chained, Written, WrittenView, Opened, PageRing.Alloc, SameHeads;
    match a
    case Frame(num) =>
      var e := Head(s.count + 1, num, s.prevFrame);
      WriteRep(s.rb, s.v, false, e, 0);
      WriterStands(Written(s.rb, false, e, 0), WrittenView(s.v, false, e, 0));
      HeadKeepsChain(s.v, s.prevFrame, s.count + 1, num);
    case Rec(e) =>
      WriteRep(s.rb, s.v, false, e, s.count);
      RecordKeepsHeads(s.v, e, s.count);
      ChainKept(s.v, WrittenView(s.v, false, e, s.count), s.prevFrame);
    case Drop(size) =>
      AllocOpens(s.rb, s.v, false, size, s.count);
      if Align(size) <= DATA_MAX {
        ReleaseGivesBack(s.rb, s.v, false, size, s.count);
      }
  }

  ghost predicate Leads(s: Writer, acts: seq<Act>, s': Writer)
    decreases |acts|
  {
    if acts == [] then s' == s else Allowed(s, acts[0]) && Leads(Do(s, acts[0]), acts[1..], s')
  }

  /** In every run from a reset, the step back from the i-th frame of the CPU gives the frame before
      it, and from the first gives none. */
  lemma {:induction false} ReverseOnEveryRun(s: Writer, acts: seq<Act>, s': Writer, i: nat)
    requires Good(s) && Leads(s, acts, s') && i < |HeadsIn(s'.v.region)|
    ensures var list := HeadsIn(s'.v.region);
            && list[i].0 in s'.rb.mem && s'.rb.mem[list[i].0].Head?
            && WalkReverse(s'.rb.mem, list[i].0, s'.rb.r) == if i == 0 then None else Some(list[i - 1].0)
    decreases |acts|
  {
    hide HeadsIn, Chained, Rep;
    if acts == [] {
      ReverseUndoesForward(s.rb, s.v, s.prevFrame, i);
    } else {
      DoKeepsGood(s, acts[0]);
      ReverseOnEveryRun(Do(s, acts[0]), acts[1..], s', i);
    }
  }

  /** A reset is such a start. */
  lemma ResetIsGood(rb: Rb, v: View, count: nat)
    requires Rep(rb, v)
    ensures Good(Writer(PageRing.Reset(rb), Emptied(v), None, count))
  {
    ResetEmpties(rb, v);
    var p := Emptied(v).region[0];
    assert HeadsIn([p]) == HeadsIn([]) + HeadsOn(p.page, p.start, p.entries);
  }
}
