/**
 What a CPU has still to deliver through gtpframe_pipe: the entries of the page taken out of its ring,
 then those in the ring.  Taking a page and giving it back delivers nothing and loses nothing, and a
 writer at work adds to the end.  The ring is not in circular mode.
 */
module Delivery {
  import opened Options
  import opened PageRing
  import opened PageRuns
  import opened PageWalk
  import opened FrameRead
  import opened FrameOrder
  import opened FrameCollect

  /** The entries still to deliver: those of the page taken out, then those in the ring. */
  function ToDeliver(h: Held): seq<Entry> {
    (match h.out case None => [] case Some(p) => p.entries) + Content(h.v)
  }

  /** The records a frame is delivered with. */
  function Records(entries: seq<Entry>): seq<Entry> {
    if entries == [] then []
    else (if Counted(entries[0]) then [entries[0]] else []) + Records(entries[1..])
  }

  datatype Frame = Frame(id: nat, num: nat, records: seq<Entry>)

  /** The frames among the entries, with their records; entries before the first head belong to a
      frame whose head is gone. */
  function Frames(flat: seq<Entry>): seq<Frame> {
    if flat == [] then []
    else if flat[0].Head? then
      [Frame(flat[0].id, flat[0].num, Records(FramePart(flat[1..])))] + Frames(flat[1..])
    else Frames(flat[1..])
  }

  // ----- what skipping entries does to the frames -----

  lemma {:induction false} FramesSkip(skipped: seq<Entry>, flat: seq<Entry>)
    requires NoHead(skipped)
    ensures Frames(skipped + flat) == Frames(flat) && Heads(skipped + flat) == Heads(flat)
    decreases |skipped|
  {
    if skipped == [] {
      assert skipped + flat == flat;
    } else {
      assert (skipped + flat)[1..] == skipped[1..] + flat;
      FramesSkip(skipped[1..], flat);
    }
  }

  // ----- pages and what is left to deliver -----

  lemma TakenContent(v: View)
    requires v.region != [] && |RingOf(v)| >= 2
    ensures Content(v) == v.region[0].entries + Content(Taken(v))
    ensures |Taken(v).region| == if |v.region| == 1 then 1 else |v.region| - 1
  {
    if |v.region| == 1 {
      TurnedContent(v);
      var v' := OnNewPage(v);
      assert Entries(v'.region)[1..] == Entries(v'.region[1..]);
    } else {
      assert Entries(v.region)[1..] == Entries(v.region[1..]);
    }
  }

  lemma GivenContent(v: View, page: Page)
    requires v.region != [] && Current(v).start >= DATA
    ensures Content(PutBackEmpty(v, page)) == Content(v) && |PutBackEmpty(v, page).region| == |v.region|
  {
    if EndOf(Current(v)) == DATA {
      NonEmptyMoves(Current(v));
      assert Entries(PutBackEmpty(v, page).region) == Entries(v.region);
    }
  }

  // ----- one CPU -----

  /** A CPU's ring and the page taken from it, in order; an `id` other than 0 is that of the frame
      whose head the page address stands at. */
  ghost predicate Ready(rb: Rb, page: Option<Addr>, id: nat, h: Held, pages: set<Page>) {
    && Good(System(rb, page), h, pages) && Ordered(None, ToDeliver(h))
    && (forall x :: x in Heads(ToDeliver(h)) ==> x < ULLONG_MAX)
    && (id != 0 ==> h.out.Some? && h.out.value.entries != [] && IsHead(h.out.value.entries[0], id))
  }

  predicate IsHead(e: Entry, id: nat) {
    e.Head? && e.id == id
  }

  lemma ReadyRing(rb: Rb, page: Option<Addr>, id: nat, h: Held, pages: set<Page>)
    requires Ready(rb, page, id, h, pages)
    ensures Links(rb) && h.v.region != [] && |RingOf(h.v)| >= 2
    ensures page.Some? <==> h.out.Some?
    ensures h.out.Some? ==> page == Some(Addr(h.out.value.page, h.out.value.start))
    ensures h.out.Some? ==> Stands(rb.next, rb.mem, None, page.value, [h.out.value.entries], [h.out.value.page])
    ensures h.out.Some? ==> forall i :: 0 <= i < |h.out.value.entries| ==> !h.out.value.entries[i].PageEnd?
  {
    LinksOf(rb, h.v);
    if h.out.Some? {
      OutStands(rb.next, rb.mem, h.out.value);
      OrderedPrefix(None, h.out.value.entries, Content(h.v));
      NoEndInside(None, h.out.value.entries);
    }
  }

  lemma {:induction false} NoEndInside(cur: Option<nat>, entries: seq<Entry>)
    requires Ordered(cur, entries)
    ensures forall i :: 0 <= i < |entries| ==> !entries[i].PageEnd?
    decreases |entries|
  {
    if entries != [] {
      NoEndInside(Tag(cur, entries[0]), entries[1..]);
      forall i | 0 <= i < |entries|
        ensures !entries[i].PageEnd?
      {
        assert i > 0 ==> entries[i] == entries[1..][i - 1];
      }
    }
  }

  /** The order and the ids of what is left after something at the front is gone. */
  lemma {:induction false} RestReady(cur: Option<nat>, gone: seq<Entry>, rest: seq<Entry>)
    requires Ordered(cur, gone + rest) && forall x :: x in Heads(gone + rest) ==> x < ULLONG_MAX
    ensures Ordered(None, rest) && forall x :: x in Heads(rest) ==> x < ULLONG_MAX
  {
    OrderedSuffix(cur, gone, rest);
    HeadsSuffix(gone, rest);
    forall x | x in Heads(rest)
      ensures x < ULLONG_MAX
    {
      assert x in Heads(gone + rest);
    }
  }

  /** Taking the next page delivers nothing and loses nothing. */
  lemma TakeReady(rb: Rb, h: Held, pages: set<Page>)
    requires Ready(rb, None, 0, h, pages)
    ensures Links(rb)
    ensures var (rb', page) := PageRing.GetPage(rb);
            var h' := Effect(false, h, Take);
            && Ready(rb', page, 0, h', pages) && ToDeliver(h') == ToDeliver(h)
            && (page.None? ==> ToDeliver(h) == [] && h' == h)
            && (page.Some? ==> |h'.v.region| == if |h.v.region| == 1 then 1 else |h.v.region| - 1)
            && (page.Some? && |h.v.region| == 1 ==> h'.out.value.entries != [])
  {
    LinksOf(rb, h.v);
    DoKeepsGood(false, System(rb, None), h, Take, pages);
    TakenContent(h.v);
    GetPageTakes(rb, h.v);
    assert ToDeliver(h) == Content(h.v);
    if |h.v.region| == 1 && h.v.region[0].entries == [] {
      assert Entries(h.v.region) == [[]];
      assert Flat([[]]) == [] + Flat([]);
    }
  }

  /** Giving the page back loses what was left on it. */
  lemma GiveReady(rb: Rb, page: Addr, h: Held, pages: set<Page>)
    requires Ready(rb, Some(page), 0, h, pages)
    ensures Links(rb)
    ensures var h' := Effect(false, h, GiveEmpty);
            && Ready(PageRing.PutPage(rb, page, true), None, 0, h', pages) && h'.out.None?
            && ToDeliver(h) == h.out.value.entries + ToDeliver(h') && |h'.v.region| == |h.v.region|
            && (h.out.value.entries == [] ==> ToDeliver(h') == ToDeliver(h))
  {
    LinksOf(rb, h.v);
    DoKeepsGood(false, System(rb, Some(page)), h, GiveEmpty, pages);
    assert PageOk(rb.mem, Current(h.v));
    GivenContent(h.v, h.out.value.page);
    assert ToDeliver(Effect(false, h, GiveEmpty)) == Content(h.v);
    RestReady(None, h.out.value.entries, Content(h.v));
  }

  // ----- a writer at work between the turns of the pipe -----

  /** Whether gtp_rb_alloc finds room for the entry, not in circular mode. */
  predicate HasRoom(v: View, e: Entry, frame: nat)
    requires v.region != [] && |RingOf(v)| >= 2
  {
    Size(e) <= DATA_MAX && Opened(v, false, Size(e), frame).Some?
  }

  lemma {:induction false} AddsContent(h: Held, e: Entry, frame: nat) returns (begun: seq<Entry>)
    requires h.v.region != [] && |RingOf(h.v)| >= 2
    ensures begun == [] || (begun == [PageBegin(frame)] && frame > 0)
    ensures var h' := h.(v := WrittenView(h.v, false, e, frame));
            if HasRoom(h.v, e, frame) then ToDeliver(h') == ToDeliver(h) + (begun + [e]) else h' == h
  {
    hide Content, WrittenView, Opened, RingOf;
    begun := [];
    if HasRoom(h.v, e, frame) {
      var cut, kept;
      cut, kept, begun := WrittenContent(h.v, false, e, frame);
      var before := match h.out case None => [] case Some(p) => p.entries;
      assert ToDeliver(h) == before + kept;
      assert before + (kept + begun + [e]) == before + kept + (begun + [e]);
    } else {
      NotWritten(h.v, false, e, frame);
    }
  }

  /** A write of the tracer, not in circular mode, changes nothing of what is to be delivered but
      adds to its end. */
  lemma WriterAdds(rb: Rb, page: Option<Addr>, id: nat, h: Held, pages: set<Page>, e: Entry, frame: nat, cur: Option<nat>)
    returns (begun: seq<Entry>)
    requires Ready(rb, page, id, h, pages) && Continues(cur, e, frame) && (e.Head? ==> e.id < ULLONG_MAX)
    requires FrameAfter(None, ToDeliver(h)) == None || FrameAfter(None, ToDeliver(h)) == cur
    ensures Links(rb) && h.v.region != [] && |RingOf(h.v)| >= 2
    ensures begun == [] || (begun == [PageBegin(frame)] && frame > 0)
    ensures var h' := h.(v := WrittenView(h.v, false, e, frame));
            && Ready(Written(rb, false, e, frame), page, id, h', pages)
            && if HasRoom(h.v, e, frame) then
                 && ToDeliver(h') == ToDeliver(h) + (begun + [e])
                 && (FrameAfter(None, ToDeliver(h)) == cur || e.Head? ==>
                       FrameAfter(None, ToDeliver(h')) == if e.Head? then Some(e.id) else cur)
               else h' == h
  {
    ReadyRing(rb, page, id, h, pages);
    WriteKeeps(false, System(rb, page), h, e, frame, pages);
    begun := AddsContent(h, e, frame);
    if HasRoom(h.v, e, frame) {
      MoreReady(rb, page, id, h, pages, e, frame, cur, begun, Written(rb, false, e, frame),
                WrittenView(h.v, false, e, frame));
    }
  }

  lemma {:induction false} MoreReady(rb: Rb, page: Option<Addr>, id: nat, h: Held, pages: set<Page>, e: Entry, frame: nat,
                                     cur: Option<nat>, begun: seq<Entry>, rb': Rb, v': View)
    requires Ready(rb, page, id, h, pages) && Continues(cur, e, frame) && (e.Head? ==> e.id < ULLONG_MAX)
    requires FrameAfter(None, ToDeliver(h)) == None || FrameAfter(None, ToDeliver(h)) == cur
    requires begun == [] || (begun == [PageBegin(frame)] && frame > 0)
    requires var h' := h.(v := v');
             Good(System(rb', page), h', pages) && ToDeliver(h') == ToDeliver(h) + (begun + [e])
    ensures Ready(rb', page, id, h.(v := v'), pages)
    ensures FrameAfter(None, ToDeliver(h)) == cur || e.Head? ==>
              FrameAfter(None, ToDeliver(h) + (begun + [e])) == if e.Head? then Some(e.id) else cur
  {
    hide Good, ToDeliver, Ordered, Heads, FrameAfter;
    var more := begun + [e];
    MoreOrdered(cur, e, frame, begun);
    OrderedLater(ToDeliver(h), more, cur);
    HeadsSuffix(ToDeliver(h), more);
    HeadsOfMore(e, frame, begun);
  }

  lemma MoreOrdered(cur: Option<nat>, e: Entry, frame: nat, begun: seq<Entry>)
    requires Continues(cur, e, frame) && (begun == [] || (begun == [PageBegin(frame)] && frame > 0))
    ensures Ordered(cur, begun + [e])
    ensures FrameAfter(cur, begun + [e]) == if e.Head? then Some(e.id) else cur
    ensures e.Head? ==> FrameAfter(None, begun + [e]) == Some(e.id)
  {
    assert FrameAfter(cur, [e]) == Tag(cur, e) by {
      assert [e][1..] == [];
    }
    if begun == [] {
      assert begun + [e] == [e];
    } else {
      assert (begun + [e])[1..] == [e] && Tag(cur, begun[0]) == cur;
    }
  }

  lemma OrderedLater(flat: seq<Entry>, more: seq<Entry>, cur: Option<nat>)
    requires Ordered(None, flat) && Ordered(cur, more)
    requires FrameAfter(None, flat) == None || FrameAfter(None, flat) == cur
    ensures Ordered(None, flat + more) && FrameAfter(None, flat + more) == FrameAfter(FrameAfter(None, flat), more)
  {
    OrderedForgets(cur, more);
    OrderedGrows(None, flat, more);
  }

  // ----- frames written one after the other -----

  lemma {:induction false} FramePartUpTo(part: seq<Entry>, later: seq<Entry>)
    requires NoHead(part) && Starts(later)
    ensures FramePart(part + later) == part
    decreases |part|
  {
    if part == [] {
      assert part + later == later;
    } else {
      assert (part + later)[1..] == part[1..] + later;
      FramePartUpTo(part[1..], later);
    }
  }

  /** Nothing, or entries that begin with a frame's head. */
  predicate Starts(entries: seq<Entry>) {
    entries == [] || entries[0].Head?
  }

  lemma {:induction false} FramesAppend(flat: seq<Entry>, more: seq<Entry>)
    requires Starts(more)
    ensures Frames(flat + more) == Frames(flat) + Frames(more)
    decreases |flat|
  {
    if flat == [] {
      assert flat + more == more;
    } else {
      assert (flat + more)[1..] == flat[1..] + more;
      FramesAppend(flat[1..], more);
      if flat[0].Head? {
        FramePartAppend(flat[1..], more);
      }
    }
  }

  lemma {:induction false} FramePartAppend(flat: seq<Entry>, more: seq<Entry>)
    requires Starts(more)
    ensures FramePart(flat + more) == FramePart(flat)
    decreases |flat|
  {
    if flat == [] {
      assert flat + more == more;
    } else {
      assert (flat + more)[1..] == flat[1..] + more;
      FramePartAppend(flat[1..], more);
    }
  }

  /** A head, what belongs to its frame, and what comes after. */
  lemma {:induction false} FrameFirst(h: Entry, part: seq<Entry>, left: seq<Entry>)
    requires h.Head? && NoHead(part) && Starts(left)
    ensures Frames([h] + part + left) == [Frame(h.id, h.num, Records(part))] + Frames(left)
    ensures Heads([h] + part + left) == [h.id] + Heads(left)
  {
    var flat := [h] + part + left;
    assert flat[1..] == part + left && flat[0] == h;
    FramePartUpTo(part, left);
    FramesSkip(part, left);
  }

  function Recorded(e: Entry): seq<Entry> {
    if Counted(e) then [e] else []
  }

  lemma RecordsFirst(e: Entry, flat: seq<Entry>)
    ensures Records([e] + flat) == Recorded(e) + Records(flat)
  {
    assert ([e] + flat)[1..] == flat;
  }

  lemma {:induction false} RecordsAppend(a: seq<Entry>, b: seq<Entry>)
    ensures Records(a + b) == Records(a) + Records(b)
    decreases |a|
  {
    hide Records;
    if a == [] {
      NoRecords();
      assert a + b == b;
    } else {
      var rest := a[1..];
      RecordsAppend(rest, b);
      RecordsFirst(a[0], rest);
      RecordsFirst(a[0], rest + b);
      assert a == [a[0]] + rest && a + b == [a[0]] + (rest + b);
      assert Recorded(a[0]) + (Records(rest) + Records(b)) == (Recorded(a[0]) + Records(rest)) + Records(b);
    }
  }

  lemma NoRecords()
    ensures Records([]) == []
  {
  }
}
