/**
 What a CPU's writer keeps about the order of frame ids in its ring: they increase, none is newer
 than the clock all CPUs take their ids from, and the entries left belong to their frames in order,
 whatever circular mode has cut off at the front.
 */
module FrameOrder {
  import opened Options
  import opened PageRing
  import opened PageRuns
  import opened PageWalk
  import opened FrameRead

  /** `last` is the id of the frame the CPU began last, 0 before the first; `clock` the newest id
      any CPU has taken. */
  ghost predicate InOrder(v: View, last: nat, clock: nat) {
    && Ordered(None, Content(v)) && last <= clock
    && (FrameAfter(None, Content(v)) == None || FrameAfter(None, Content(v)) == Some(last))
    && forall id :: id in Heads(Content(v)) ==> id <= clock
  }

  /** Every frame of `v'` is one of `v`, or the new one. */
  ghost predicate HeadsFrom(v: View, v': View, newest: Option<nat>) {
    forall id :: id in Heads(Content(v')) ==> id in Heads(Content(v)) || newest == Some(id)
  }

  lemma HeadsFromSelf(v: View)
    ensures HeadsFrom(v, v, None)
  {
  }

  lemma HeadsFromFrom(v: View, v1: View, v2: View)
    requires HeadsFrom(v, v1, None) && HeadsFrom(v1, v2, None)
    ensures HeadsFrom(v, v2, None)
  {
  }

  lemma LaterClock(v: View, last: nat, clock: nat, clock': nat)
    requires InOrder(v, last, clock) && clock <= clock'
    ensures InOrder(v, last, clock')
  {
  }

  lemma {:induction false} HeadsAfterWrite(v: View, circular: bool, e: Entry, id: nat)
    requires v.region != [] && |RingOf(v)| >= 2 && Record(e)
    ensures HeadsFrom(v, WrittenView(v, circular, e, id), if e.Head? then Some(e.id) else None)
  {
    hide Content, WrittenView, RingOf, Opened, Heads;
    if Size(e) <= DATA_MAX && Opened(v, circular, Size(e), id).Some? {
      var cut, kept, begun := WrittenContent(v, circular, e, id);
      HeadsSuffix(cut, kept);
      HeadsSuffix(kept, begun + [e]);
      assert kept + begun + [e] == kept + (begun + [e]);
      HeadsOfMore(e, id, begun);
    } else {
      NotWritten(v, circular, e, id);
    }
  }

  lemma HeadsOfMore(e: Entry, frame: nat, begun: seq<Entry>)
    requires begun == [] || begun == [PageBegin(frame)]
    ensures Heads(begun + [e]) == if e.Head? then [e.id] else []
  {
    if begun != [] {
      assert (begun + [e])[1..] == [e];
    }
    assert Heads([e]) == (if e.Head? then [e.id] else []) + Heads([e][1..]);
  }

  lemma NotWritten(v: View, circular: bool, e: Entry, frame: nat)
    requires v.region != [] && |RingOf(v)| >= 2
    requires Size(e) > DATA_MAX || Opened(v, circular, Size(e), frame).None?
    ensures WrittenView(v, circular, e, frame) == v
  {
  }

  /** gtp_action_head: the new frame takes the next id of the clock, unless the ring is full. */
  lemma {:induction false} HeadInOrder(v: View, circular: bool, last: nat, clock: nat, num: nat, prev: Option<Addr>)
    requires v.region != [] && |RingOf(v)| >= 2 && InOrder(v, last, clock)
    ensures var v' := WrittenView(v, circular, Head(clock + 1, num, prev), 0);
            && HeadsFrom(v, v', Some(clock + 1))
            && if Opened(v, circular, 28, 0).Some? then InOrder(v', clock + 1, clock + 1) else v' == v
  {
    hide Content, WrittenView, RingOf, Opened, Heads, Ordered, FrameAfter;
    var e := Head(clock + 1, num, prev);
    HeadsAfterWrite(v, circular, e, 0);
    if Opened(v, circular, 28, 0).Some? {
      WriteKeepsOrder(v, circular, e, 0, Some(last));
    } else {
      NotWritten(v, circular, e, 0);
    }
  }

  /** A record of the frame begun last. */
  lemma {:induction false} RecordInOrder(v: View, circular: bool, last: nat, clock: nat, e: Entry)
    requires v.region != [] && |RingOf(v)| >= 2 && InOrder(v, last, clock)
    requires last > 0 && Record(e) && !e.Head?
    ensures var v' := WrittenView(v, circular, e, last);
            InOrder(v', last, clock) && HeadsFrom(v, v', None)
  {
    hide Content, WrittenView, RingOf, Opened, Heads, Ordered, FrameAfter;
    HeadsAfterWrite(v, circular, e, last);
    WriteKeepsOrder(v, circular, e, last, Some(last));
  }

  /** GTP_RB_RELEASE: room given back, less the page that circular mode may have discarded for it. */
  lemma {:induction false} GivenBackInOrder(v: View, circular: bool, size: int, last: nat, clock: nat)
    requires v.region != [] && InOrder(v, last, clock)
    ensures var v' := GivenBack(v, circular, size);
            InOrder(v', last, clock) && HeadsFrom(v, v', None)
  {
    hide Heads, Ordered, FrameAfter, Content;
    if GivenBack(v, circular, size) != v {
      DroppedContent(v);
      CutInOrder(v.region[0].entries, Content(FirstDropped(v)), last);
    }
  }

  lemma {:induction false} CutInOrder(cut: seq<Entry>, kept: seq<Entry>, last: nat)
    requires Ordered(None, cut + kept)
    requires FrameAfter(None, cut + kept) == None || FrameAfter(None, cut + kept) == Some(last)
    ensures Ordered(None, kept) && (FrameAfter(None, kept) == None || FrameAfter(None, kept) == Some(last))
    ensures forall id :: id in Heads(kept) ==> id in Heads(cut + kept)
  {
    OrderedSuffix(None, cut, kept);
    HeadsSuffix(cut, kept);
  }

  /** gtp_rb_reset. */
  lemma {:induction false} EmptiedInOrder(v: View, clock: nat)
    requires v.region != []
    ensures InOrder(Emptied(v), 0, clock) && Heads(Content(Emptied(v))) == []
  {
    EmptyContent(v.region[|v.region| - 1].page, Emptied(v).free);
  }

  lemma EmptyContent(page: Page, free: seq<Page>)
    ensures var v := View([PageLog(page, DATA, [])], free);
            Content(v) == [] && Heads(Content(v)) == [] && InOrder(v, 0, 0)
  {
    var v := View([PageLog(page, DATA, [])], free);
    var rest := Entries(v.region);
    assert rest == [[]] && rest[1..] == [];
    assert Flat(rest) == rest[0] + Flat(rest[1..]);
  }

  // ----- several CPUs -----

  /** One more frame on one CPU, newer than all: the lists still merge. */
  lemma {:induction false} MergeableAfter(lists: seq<seq<nat>>, c: nat, list: seq<nat>, clock: nat)
    requires Mergeable(lists) && c < |lists| && Increasing(list)
    requires forall d, id :: 0 <= d < |lists| && id in lists[d] ==> id <= clock
    requires forall id :: id in list ==> id in lists[c] || id == clock + 1
    ensures Mergeable(lists[c := list])
  {
    var lists' := lists[c := list];
    forall a, b, id | 0 <= a < |lists'| && 0 <= b < |lists'| && id in lists'[a] && id in lists'[b]
      ensures a == b
    {
      NewIsHere(lists, c, list, clock, a, id);
      NewIsHere(lists, c, list, clock, b, id);
    }
  }

  lemma NewIsHere(lists: seq<seq<nat>>, c: nat, list: seq<nat>, clock: nat, d: nat, id: nat)
    requires c < |lists| && d < |lists| && id in lists[c := list][d]
    requires forall d, id :: 0 <= d < |lists| && id in lists[d] ==> id <= clock
    requires forall id :: id in list ==> id in lists[c] || id == clock + 1
    ensures if id == clock + 1 then d == c else id in lists[d]
  {
  }

  lemma {:induction false} ViewsMergeable(views: seq<View>, c: nat, v: View, last: nat, clock: nat)
    requires Mergeable(HeadLists(views)) && c < |views|
    requires forall d, id :: 0 <= d < |views| && id in Heads(Content(views[d])) ==> id <= clock
    requires HeadsFrom(views[c], v, Some(clock + 1)) && InOrder(v, last, clock + 1)
    ensures Mergeable(HeadLists(views[c := v]))
  {
    HeadsOrdered(None, Content(v));
    hide Heads, Content, Ordered, FrameAfter;
    MergeableAfter(HeadLists(views), c, Heads(Content(v)), clock);
    assert HeadLists(views[c := v]) == HeadLists(views)[c := Heads(Content(v))];
  }
}
