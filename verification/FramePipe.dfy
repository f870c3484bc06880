/**
 Draining the page ring through gtpframe_pipe while the writers go on: pages are taken out of each CPU's
 ring, their frames are delivered, and emptied pages go back.  The ring is not in circular mode.
 */
module FramePipe {
  import opened Options
  import opened PageRing
  import opened PageRuns
  import opened PageWalk
  import opened FrameRead
  import opened FrameCollect
  import opened Delivery
  import opened FrameJobs
  import opened FrameMeaning

  // ----- walks inside one page -----

  /** The walk of the peek: to the next head on the page. */
  const PAGE_TO_HEAD := Walker(None, false, false, None, None, None)

  lemma {:induction false} HeadOnPage(entries: seq<Entry>) returns (gone: seq<Entry>)
    requires forall i :: 0 <= i < |entries| ==> !entries[i].PageEnd?
    ensures var (reason, rest) := Scan(PAGE_TO_HEAD, false, [entries], 0);
            && |rest| == 1 && entries == gone + rest[0] && NoHead(gone)
            && (if reason == AtNewEntry then rest[0] != [] && rest[0][0].Head? else reason == AtPageEnd && rest[0] == [])
    decreases |entries|
  {
    gone := [];
    if entries != [] {
      assert [[entries][0][1..]] + [entries][1..] == [entries[1..]];
      if !entries[0].Head? {
        gone := HeadOnPage(entries[1..]);
        gone := [entries[0]] + gone;
      }
    }
  }

  /** The walk of get_entry inside frame `id`, once it has counted all it may: to the next record of
      the frame on the page, or the next head. */
  function PageToRecord(id: nat, step: nat): Walker {
    Walker(None, false, false, Some(id), None, Some(step))
  }

  lemma {:induction false} RecordOnPage(id: nat, step: nat, entries: seq<Entry>) returns (gone: seq<Entry>)
    requires Ordered(Some(id), entries)
    ensures var (reason, rest) := Scan(PageToRecord(id, step), false, [entries], step);
            && |rest| == 1 && entries == gone + rest[0] && Quiet(gone)
            && (if reason == AtStep then rest[0] != [] && Counted(rest[0][0])
                else if reason == AtNewEntry then rest[0] != [] && rest[0][0].Head?
                else reason == AtPageEnd && rest[0] == [])
    decreases |entries|
  {
    gone := [];
    if entries != [] {
      assert [[entries][0][1..]] + [entries][1..] == [entries[1..]];
      if !entries[0].Head? && !Counted(entries[0]) {
        gone := RecordOnPage(id, step, entries[1..]);
        gone := [entries[0]] + gone;
      }
    }
  }

  /** Neither a head nor a record. */
  predicate Quiet(entries: seq<Entry>) {
    forall i :: 0 <= i < |entries| ==> !entries[i].Head? && !Counted(entries[i])
  }

  /** From a record, with one step to go, the walk passes it first. */
  lemma RecordPassed(id: nat, entries: seq<Entry>)
    requires entries != [] && Counted(entries[0])
    ensures Scan(PageToRecord(id, 1), false, [entries], 0) == Scan(PageToRecord(id, 1), false, [entries[1..]], 1)
  {
    assert [[entries][0][1..]] + [entries][1..] == [entries[1..]];
  }

  lemma {:induction false} RecordsSkip(skipped: seq<Entry>, flat: seq<Entry>)
    requires Quiet(skipped)
    ensures Records(FramePart(skipped + flat)) == Records(FramePart(flat))
    decreases |skipped|
  {
    if skipped == [] {
      assert skipped + flat == flat;
    } else {
      assert (skipped + flat)[1..] == skipped[1..] + flat;
      RecordsSkip(skipped[1..], flat);
      assert FramePart(skipped + flat) == [skipped[0]] + FramePart(skipped[1..] + flat);
      assert ([skipped[0]] + FramePart(skipped[1..] + flat))[1..] == FramePart(skipped[1..] + flat);
    }
  }

  lemma RecordTaken(e: Entry, flat: seq<Entry>)
    requires Counted(e)
    ensures Records(FramePart([e] + flat)) == [e] + Records(FramePart(flat))
    ensures Frames([e] + flat) == Frames(flat) && Heads([e] + flat) == Heads(flat)
  {
    assert ([e] + flat)[1..] == flat;
    assert ([e] + FramePart(flat))[1..] == FramePart(flat);
  }

  // ----- the page address moves -----

  /** Where a walk on the page taken out ended. */
  function Moved(h: Held, at: Addr, rest: seq<Entry>): Held {
    h.(out := Some(PageLog(at.page, at.off, rest)))
  }

  /** A walk on the page taken out moves its address past entries. */
  lemma {:induction false} WalkReady(rb: Rb, page: Addr, h: Held, pages: set<Page>, at: Addr, gone: seq<Entry>,
                                     rest: seq<Entry>)
    requires Ready(rb, Some(page), 0, h, pages)
    requires Stands(rb.next, rb.mem, None, at, [rest], [h.out.value.page])
    requires h.out.value.entries == gone + rest
    ensures Ready(rb, Some(at), 0, Moved(h, at, rest), pages)
    ensures ToDeliver(h) == gone + ToDeliver(Moved(h, at, rest))
  {
    assert ToDeliver(h) == gone + (rest + Content(h.v));
    RestReady(None, gone, rest + Content(h.v));
  }

  lemma HeadReady(rb: Rb, page: Addr, h: Held, pages: set<Page>, reason: Reason, at: Addr, rest: seq<seq<Entry>>)
    returns (gone: seq<Entry>)
    requires Ready(rb, Some(page), 0, h, pages) && h.out.Some?
    requires (reason, rest) == Scan(PAGE_TO_HEAD, false, [h.out.value.entries], 0)
    requires Stands(rb.next, rb.mem, None, at, rest, [h.out.value.page])
    ensures |rest| == 1 && |rest[0]| <= |h.out.value.entries| && (reason == AtNewEntry || reason == AtPageEnd)
    ensures var h' := Moved(h, at, rest[0]);
            && ToDeliver(h) == gone + ToDeliver(h') && NoHead(gone)
            && |ToDeliver(h')| == |ToDeliver(h)| - (|h.out.value.entries| - |rest[0]|)
            && (reason == AtPageEnd ==> rest[0] == [] && Ready(rb, Some(at), 0, h', pages))
            && (reason == AtNewEntry ==>
                  && at in rb.mem && rb.mem[at].Head? && rb.mem[at].id > 0
                  && Ready(rb, Some(at), rb.mem[at].id, h', pages)
                  && ToDeliver(h') != [] && ToDeliver(h')[0] == rb.mem[at])
  {
    var entries := h.out.value.entries;
    ReadyRing(rb, Some(page), 0, h, pages);
    gone := HeadOnPage(entries);
    assert rest == [rest[0]];
    WalkReady(rb, page, h, pages, at, gone, rest[0]);
    if reason == AtNewEntry {
      Tests(rb.next, rb.mem, None, at, rest, [h.out.value.page]);
      HeadIdPositive(None, ToDeliver(Moved(h, at, rest[0])));
    }
  }

  lemma HeadIdPositive(cur: Option<nat>, flat: seq<Entry>)
    requires Ordered(cur, flat) && flat != [] && flat[0].Head?
    ensures flat[0].id > 0
  {
  }

  // ----- what the pipe and the writer have done to one CPU -----

  /** Since `h0` the pipe has passed `gone` and the writer has added `more`, in `jobs`. */
  ghost predicate Served(h0: Held, traffic0: seq<seq<Job>>, h: Held, traffic: seq<seq<Job>>,
                         gone: seq<Entry>, more: seq<Entry>, jobs: seq<Job>) {
    && ToDeliver(h0) + more == gone + ToDeliver(h) && Starts(more)
    && Pending(traffic0) == jobs + Pending(traffic) && FromJobs(Frames(more), jobs)
    && (forall x :: x in Heads(more) ==> x in JobIds(jobs))
    && |traffic| <= |traffic0| && (|traffic| == |traffic0| ==> more == [])
  }

  lemma ServedStart(h: Held, traffic: seq<seq<Job>>)
    ensures Served(h, traffic, h, traffic, [], [], [])
  {
    hide ToDeliver, Pending;
    assert ToDeliver(h) + [] == [] + ToDeliver(h);
    assert Pending(traffic) == [] + Pending(traffic);
  }

  lemma {:induction false} ServedArrive(h0: Held, traffic0: seq<seq<Job>>, h: Held, traffic: seq<seq<Job>>,
                                        gone: seq<Entry>, more: seq<Entry>, jobs: seq<Job>, h': Held,
                                        traffic': seq<seq<Job>>, more': seq<Entry>,
                                        jobs': seq<Job>)
    requires Served(h0, traffic0, h, traffic, gone, more, jobs)
    requires ToDeliver(h') == ToDeliver(h) + more' && Starts(more') && FromJobs(Frames(more'), jobs')
    requires forall x :: x in Heads(more') ==> x in JobIds(jobs')
    requires Pending(traffic) == jobs' + Pending(traffic')
    requires if traffic == [] then traffic' == [] && more' == [] else |traffic'| < |traffic|
    ensures Served(h0, traffic0, h', traffic', gone, more + more', jobs + jobs')
  {
    hide ToDeliver, Pending, Frames, Heads, FromJobs;
    assert ToDeliver(h0) + (more + more') == (ToDeliver(h0) + more) + more' == gone + (ToDeliver(h) + more');
    assert Pending(traffic0) == jobs + (jobs' + Pending(traffic')) == (jobs + jobs') + Pending(traffic');
    FramesAppend(more, more');
    HeadsSuffix(more, more');
    FromMoreJobs(Frames(more), jobs, Frames(more'), jobs');
    IdsOfBoth(jobs, jobs');
    if more == [] {
      assert more + more' == more';
    }
  }

  lemma IdsOfBoth(jobs: seq<Job>, jobs': seq<Job>)
    ensures JobIds(jobs + jobs') == JobIds(jobs) + JobIds(jobs')
  {
  }

  lemma ServedPassed(h0: Held, traffic0: seq<seq<Job>>, h: Held, traffic: seq<seq<Job>>, gone: seq<Entry>, more: seq<Entry>,
                     jobs: seq<Job>, h': Held, gone': seq<Entry>)
    requires Served(h0, traffic0, h, traffic, gone, more, jobs) && ToDeliver(h) == gone' + ToDeliver(h')
    ensures Served(h0, traffic0, h', traffic, gone + gone', more, jobs)
  {
    hide ToDeliver, Pending, Frames, Heads, FromJobs;
    assert gone + (gone' + ToDeliver(h')) == (gone + gone') + ToDeliver(h');
  }

  lemma {:induction false} AfterSuffix(cur: Option<nat>, gone: seq<Entry>, rest: seq<Entry>)
    ensures FrameAfter(None, rest) == None || FrameAfter(None, rest) == FrameAfter(cur, gone + rest)
    decreases |gone|
  {
    if gone == [] {
      assert gone + rest == rest;
      AfterTag(cur, rest);
    } else {
      assert (gone + rest)[1..] == gone[1..] + rest;
      AfterSuffix(Tag(cur, gone[0]), gone[1..], rest);
    }
  }

  lemma {:induction false} AfterTag(cur: Option<nat>, flat: seq<Entry>)
    ensures FrameAfter(None, flat) == None || FrameAfter(None, flat) == FrameAfter(cur, flat)
    decreases |flat|
  {
    if flat != [] && Tag(None, flat[0]) == None {
      AfterTag(Tag(cur, flat[0]), flat[1..]);
    }
  }

  lemma {:induction false} FollowsStill(h: Held, h': Held, gone: seq<Entry>, jobs: seq<Job>)
    requires Follows(h, jobs) && ToDeliver(h) == gone + ToDeliver(h')
    ensures Follows(h', jobs)
  {
    hide ToDeliver, FrameAfter, JobOk;
    AfterSuffix(None, gone, ToDeliver(h'));
  }

  lemma NothingGone(flat: seq<Entry>)
    ensures flat == [] + flat && flat + [] == flat
  {
  }

  // ----- the next head -----

  /** What it says of the frames that only entries without a head were passed. */
  lemma {:induction false} ServedFrames(h0: Held, traffic0: seq<seq<Job>>, h: Held, traffic: seq<seq<Job>>,
                                        gone: seq<Entry>, more: seq<Entry>, jobs: seq<Job>)
    requires Served(h0, traffic0, h, traffic, gone, more, jobs) && NoHead(gone)
    ensures Frames(ToDeliver(h)) == Frames(ToDeliver(h0)) + Frames(more)
    ensures Heads(ToDeliver(h)) == Heads(ToDeliver(h0)) + Heads(more)
  {
    hide ToDeliver, Pending, Frames, Heads, FromJobs;
    FramesAppend(ToDeliver(h0), more);
    HeadsSuffix(ToDeliver(h0), more);
    FramesSkip(gone, ToDeliver(h));
  }

  lemma NoHeadBoth(a: seq<Entry>, b: seq<Entry>)
    requires NoHead(a) && NoHead(b)
    ensures NoHead(a + b)
  {
  }

  /** The turn of gtpframe_pipe_peek for one CPU whose next frame is not known: the page address is
      brought to the next head, through as many pages as it takes; emptied pages go back.  Before it
      gets the lock of the ring, to take a page or to put one back, the writer may have it. */
  method NextHead(rb0: Rb, page0: Option<Addr>, traffic0: seq<seq<Job>>, ghost h0: Held, ghost pages: set<Page>)
    returns (rb: Rb, page: Option<Addr>, id: nat, traffic: seq<seq<Job>>, ghost h: Held, ghost gone: seq<Entry>,
             ghost more: seq<Entry>, ghost jobs: seq<Job>)
    requires Ready(rb0, page0, 0, h0, pages) && Follows(h0, Pending(traffic0))
    ensures Ready(rb, page, id, h, pages) && Follows(h, Pending(traffic))
    ensures Served(h0, traffic0, h, traffic, gone, more, jobs) && NoHead(gone)
    ensures Frames(ToDeliver(h)) == Frames(ToDeliver(h0)) + Frames(more)
    ensures Heads(ToDeliver(h)) == Heads(ToDeliver(h0)) + Heads(more)
    ensures if id == 0 then page == None && ToDeliver(h) == [] && (traffic0 != [] ==> |traffic| < |traffic0|)
            else page.Some? && page.value in rb.mem && ToDeliver(h) != [] && ToDeliver(h)[0] == rb.mem[page.value]
    ensures if Heads(ToDeliver(h)) == [] then id == 0 else id == Heads(ToDeliver(h))[0] > 0
  {
    hide Ready, ToDeliver, Frames, Heads, Scan, Stands, PageRing.GetPage, PageRing.PutPage, Effect, Content, Served;
    hide Follows;
    hide Pending, FromJobs, NoHead, Starts;
    rb, page, traffic, h, gone, more, jobs := rb0, page0, traffic0, h0, [], [], [];
    ghost var m, js, gone';
    ServedStart(h, traffic);
    NoHeadYet();
    while true
      invariant Ready(rb, page, 0, h, pages) && Follows(h, Pending(traffic))
      invariant Served(h0, traffic0, h, traffic, gone, more, jobs) && NoHead(gone) && |traffic| <= |traffic0|
      decreases |traffic|, |ToDeliver(h)| + |h.v.region|, if page.None? then 0 else 1
    {
      if page.None? {
        ghost var before, waiting := h, traffic;
        rb, traffic, h, m, js := Arrive(rb, traffic, page, 0, h, pages);
        ServedArrive(h0, traffic0, before, waiting, gone, more, jobs, h, traffic, m, js);
        more, jobs := more + m, jobs + js;
        TakeReady(rb, h, pages);
        ReadyRing(rb, page, 0, h, pages);
        before := h;
        var (rb', taken) := PageRing.GetPage(rb);
        rb, page := rb', taken;
        h := Effect(false, h, Take);
        NothingGone(ToDeliver(h));
        FollowsStill(before, h, [], Pending(traffic));
        ServedPassed(h0, traffic0, before, traffic, gone, more, jobs, h, []);
        assert gone + [] == gone;
        if page.None? {
          ServedFrames(h0, traffic0, h, traffic, gone, more, jobs);
          EndOrHead(rb, None, 0, h, pages);
          return rb, None, 0, traffic, h, gone, more, jobs;
        }
      }
      ReadyRing(rb, page, 0, h, pages);
      var reason, at;
      ghost var rest, pages';
      ghost var here := h;
      reason, at, rest, pages' := Walk(rb.next, rb.mem, PAGE_TO_HEAD, page.value, [h.out.value.entries],
                                       [h.out.value.page]);
      gone' := HeadReady(rb, page.value, h, pages, reason, at, rest);
      h, page := Moved(h, at, rest[0]), Some(at);
      FollowsStill(here, h, gone', Pending(traffic));
      ServedPassed(h0, traffic0, here, traffic, gone, more, jobs, h, gone');
      NoHeadBoth(gone, gone');
      gone := gone + gone';
      if reason == AtNewEntry {
        id := rb.mem[at].id;
        ServedFrames(h0, traffic0, h, traffic, gone, more, jobs);
        HeadKnown(rb, page, id, h, pages);
        return;
      }
      here := h;
      ghost var waiting := traffic;
      rb, traffic, h, m, js := Arrive(rb, traffic, page, 0, h, pages);
      ServedArrive(h0, traffic0, here, waiting, gone, more, jobs, h, traffic, m, js);
      more, jobs := more + m, jobs + js;
      GiveReady(rb, at, h, pages);
      ReadyRing(rb, page, 0, h, pages);
      here := h;
      rb, page := PageRing.PutPage(rb, at, true), None;
      h := Effect(false, h, GiveEmpty);
      NothingGone(ToDeliver(h));
      FollowsStill(here, h, [], Pending(traffic));
      ServedPassed(h0, traffic0, here, traffic, gone, more, jobs, h, []);
      assert gone + [] == gone;
    }
  }

  lemma NoHeadYet()
    ensures NoHead([])
  {
  }

  // ----- one frame -----

  /** Inside frame `id`, past its head. */
  ghost predicate Inside(rb: Rb, page: Option<Addr>, id: nat, h: Held, pages: set<Page>) {
    Ready(rb, page, 0, h, pages) && Ordered(Some(id), ToDeliver(h))
  }

  /** The head is delivered; the frame's records follow. */
  lemma HeadDelivered(rb: Rb, page: Addr, id: nat, h: Held, pages: set<Page>)
    requires Ready(rb, Some(page), id, h, pages) && id != 0
    ensures page in rb.mem && rb.mem[page].Head? && rb.mem[page].id == id
    ensures h.out.Some? && h.out.value.entries != []
    ensures var p := h.out.value;
            var h' := Moved(h, Addr(page.page, page.off + 28), p.entries[1..]);
            && Inside(rb, Some(Addr(page.page, page.off + 28)), id, h', pages)
            && ToDeliver(h) == [rb.mem[page]] + ToDeliver(h')
  {
    var p := h.out.value;
    ReadyRing(rb, Some(page), id, h, pages);
    Tests(rb.next, rb.mem, None, page, [p.entries], [p.page]);
    StepsOver(rb.next, rb.mem, None, page, [p.entries], [p.page]);
    var at := Addr(page.page, page.off + 28);
    assert [[p.entries][0][1..]] + [p.entries][1..] == [p.entries[1..]];
    var h' := Moved(h, at, p.entries[1..]);
    assert p.entries == [p.entries[0]] + p.entries[1..];
    WalkReady(rb, page, h, pages, at, [p.entries[0]], p.entries[1..]);
    assert ToDeliver(h)[1..] == ToDeliver(h');
    assert Ordered(Some(id), ToDeliver(h'));
  }

  /** The ids the writer has still to give are newer than the frame being delivered. */
  lemma {:induction false} NewerThanFrame(rb: Rb, page: Option<Addr>, id: nat, h: Held, pages: set<Page>, jobs: seq<Job>)
    requires Ready(rb, page, id, h, pages) && id != 0 && Follows(h, jobs)
    ensures forall x :: x in JobIds(jobs) ==> id < x
  {
    HeadKnown(rb, page, id, h, pages);
    assert ToDeliver(h)[0] == h.out.value.entries[0];
    AfterNewer(id, ToDeliver(h)[1..]);
    hide JobOk, ToDeliver, Ordered;
    forall x | x in JobIds(jobs) ensures id < x {
      var i :| 0 <= i < |jobs| && JobIds(jobs)[i] == x;
      assert Newer(h, jobs[i].id);
    }
  }

  lemma {:induction false} AfterNewer(id: nat, flat: seq<Entry>)
    requires Ordered(Some(id), flat)
    ensures FrameAfter(Some(id), flat).Some? && id <= FrameAfter(Some(id), flat).value
    decreases |flat|
  {
    if flat != [] {
      AfterNewer(Tag(Some(id), flat[0]).value, flat[1..]);
    }
  }

  /** What a walk to the next record passes belongs to the frame and is no record. */
  lemma RecordFlat(id: nat, step: nat, entries: seq<Entry>, content: seq<Entry>, reason: Reason, rest: seq<seq<Entry>>)
    returns (gone: seq<Entry>)
    requires Ordered(Some(id), entries + content)
    requires (reason, rest) == Scan(PageToRecord(id, step), false, [entries], step)
    ensures |rest| == 1 && entries == gone + rest[0] && Quiet(gone)
    ensures reason == AtStep || reason == AtNewEntry || reason == AtPageEnd
    ensures var left := rest[0] + content;
            && Ordered(Some(id), left)
            && (reason == AtStep ==> rest[0] != [] && Counted(rest[0][0]))
            && (reason == AtNewEntry ==> Starts(left))
            && (reason == AtPageEnd ==> rest[0] == [])
  {
    hide *;
    OrderedPrefix(Some(id), entries, content);
    gone := RecordOnPage(id, step, entries);
    var left := rest[0] + content;
    assert entries + content == gone + left;
    GoneOrdered(id, gone, left);
    StartsFirst(rest[0], content);
  }

  lemma StartsFirst(entries: seq<Entry>, content: seq<Entry>)
    ensures entries != [] && entries[0].Head? ==> Starts(entries + content)
  {
  }

  lemma {:induction false} QuietRecords(gone: seq<Entry>)
    requires Quiet(gone)
    ensures Records(gone) == [] && NoHead(gone)
    decreases |gone|
  {
    if gone != [] {
      QuietRecords(gone[1..]);
    }
  }

  lemma {:induction false} RecordThenQuiet(e: Entry, gone: seq<Entry>)
    requires Counted(e) && Quiet(gone)
    ensures Records([e] + gone) == [e] && NoHead([e] + gone)
  {
    QuietRecords(gone);
    assert ([e] + gone)[1..] == gone;
  }

  /** Passing the record it started from, the walk goes on from the next entry. */
  lemma RecordTail(id: nat, entries: seq<Entry>, content: seq<Entry>)
    requires Ordered(Some(id), entries + content) && entries != [] && Counted(entries[0])
    ensures var tail := entries[1..];
            && Ordered(Some(id), tail + content)
            && Scan(PageToRecord(id, 1), false, [entries], 0) == Scan(PageToRecord(id, 1), false, [tail], 1)
  {
    RecordPassed(id, entries);
    assert (entries + content)[1..] == entries[1..] + content;
  }

  lemma GoneOrdered(id: nat, gone: seq<Entry>, left: seq<Entry>)
    requires Ordered(Some(id), gone + left) && Quiet(gone)
    ensures Ordered(Some(id), left)
  {
    OrderedPrefix(Some(id), gone, left);
    SameFrame(id, gone);
  }

  /** A walk to the next record inside the frame. */
  lemma RecordReady(rb: Rb, page: Addr, id: nat, h: Held, pages: set<Page>, step: nat, skip: nat,
                    reason: Reason, at: Addr, rest: seq<seq<Entry>>) returns (gone: seq<Entry>)
    requires Inside(rb, Some(page), id, h, pages) && h.out.Some? && skip <= 1
    requires skip == 1 ==> step == 1 && h.out.value.entries != [] && Counted(h.out.value.entries[0])
    requires skip == 0 ==> step == 0
    requires (reason, rest) == Scan(PageToRecord(id, step), false, [h.out.value.entries], 0)
    requires Stands(rb.next, rb.mem, None, at, rest, [h.out.value.page])
    ensures |rest| == 1 && |rest[0]| + skip <= |h.out.value.entries|
    ensures reason == AtStep || reason == AtNewEntry || reason == AtPageEnd
    ensures NoHead(gone) && Records(gone) == if skip == 1 then [h.out.value.entries[0]] else []
    ensures var h' := Moved(h, at, rest[0]);
            && Inside(rb, Some(at), id, h', pages) && ToDeliver(h) == gone + ToDeliver(h')
            && (reason == AtStep ==> rest[0] != [] && Counted(rest[0][0]) && at in rb.mem && rb.mem[at] == rest[0][0])
            && (reason == AtNewEntry ==> Starts(ToDeliver(h')))
            && (reason == AtPageEnd ==> rest[0] == [])
  {
    hide *;
    var entries, content := h.out.value.entries, Content(h.v);
    InsideFlat(rb, Some(page), id, h, pages);
    if skip == 1 {
      RecordTail(id, entries, content);
      var quiet := RecordFlat(id, 1, entries[1..], content, reason, rest);
      RecordThenQuiet(entries[0], quiet);
      gone := [entries[0]] + quiet;
      FirstThen(entries, quiet, rest[0]);
    } else {
      gone := RecordFlat(id, 0, entries, content, reason, rest);
      QuietRecords(gone);
    }
    OnlyOne(rest);
    WalkReady(rb, page, h, pages, at, gone, rest[0]);
    MovedFlat(h, at, rest[0]);
    InsideFrom(rb, Some(at), id, Moved(h, at, rest[0]), pages);
    if reason == AtStep {
      Tests(rb.next, rb.mem, None, at, rest, [h.out.value.page]);
    }
  }

  lemma OnlyOne(rest: seq<seq<Entry>>)
    requires |rest| == 1
    ensures rest == [rest[0]]
  {
  }

  lemma FirstThen(entries: seq<Entry>, gone: seq<Entry>, rest: seq<Entry>)
    requires entries != [] && entries[1..] == gone + rest
    ensures entries == ([entries[0]] + gone) + rest
  {
    assert entries == [entries[0]] + entries[1..];
  }

  lemma InsideFlat(rb: Rb, page: Option<Addr>, id: nat, h: Held, pages: set<Page>)
    requires Inside(rb, page, id, h, pages) && h.out.Some?
    ensures Ready(rb, page, 0, h, pages)
    ensures ToDeliver(h) == h.out.value.entries + Content(h.v) && Ordered(Some(id), h.out.value.entries + Content(h.v))
  {
  }

  lemma MovedFlat(h: Held, at: Addr, rest: seq<Entry>)
    ensures var h' := Moved(h, at, rest);
            h'.out.Some? && h'.out.value.entries == rest && ToDeliver(h') == rest + Content(h.v)
  {
  }

  lemma InsideFrom(rb: Rb, page: Option<Addr>, id: nat, h: Held, pages: set<Page>)
    requires Ready(rb, page, 0, h, pages) && Ordered(Some(id), ToDeliver(h))
    ensures Inside(rb, page, id, h, pages)
  {
  }

  lemma {:induction false} SameFrame(id: nat, gone: seq<Entry>)
    requires Ordered(Some(id), gone) && forall i :: 0 <= i < |gone| ==> !gone[i].Head?
    ensures FrameAfter(Some(id), gone) == Some(id)
    decreases |gone|
  {
    if gone != [] {
      SameFrame(id, gone[1..]);
    }
  }

  /** While the pipe is inside the frame the writer adds later frames. */
  lemma {:induction false} InsideLater(rb: Rb, page: Option<Addr>, id: nat, h: Held, pages: set<Page>, rb': Rb, h': Held,
                                       more: seq<Entry>, jobs: seq<Job>)
    requires Inside(rb, page, id, h, pages) && Ready(rb', page, 0, h', pages)
    requires ToDeliver(h') == ToDeliver(h) + more && Starts(more)
    requires forall x :: x in Heads(more) ==> x in JobIds(jobs)
    requires forall x :: x in JobIds(jobs) ==> id < x
    ensures Inside(rb', page, id, h', pages)
  {
    var flat := ToDeliver(h);
    OrderedSuffix(None, flat, more);
    AfterPrefix(None, flat, more);
    if more != [] {
      assert Heads(more)[0] == more[0].id;
      assert more[0].id in Heads(more);
      assert Ordered(Some(id), more);
    }
    OrderedJoined(id, flat, more);
  }

  lemma {:induction false} AfterPrefix(cur: Option<nat>, flat: seq<Entry>, more: seq<Entry>)
    requires Ordered(cur, flat + more)
    ensures Ordered(FrameAfter(cur, flat), more)
    decreases |flat|
  {
    if flat == [] {
      assert flat + more == more;
    } else {
      assert (flat + more)[1..] == flat[1..] + more;
      AfterPrefix(Tag(cur, flat[0]), flat[1..], more);
    }
  }

  lemma {:induction false} OrderedJoined(id: nat, flat: seq<Entry>, more: seq<Entry>)
    requires Ordered(Some(id), flat) && Ordered(Some(id), more) && Ordered(FrameAfter(None, flat), more)
    ensures Ordered(Some(id), flat + more)
  {
    AfterTag(Some(id), flat);
    if FrameAfter(None, flat) == None {
      AfterNone(id, flat);
    }
    OrderedGrows(Some(id), flat, more);
  }

  /** Entries without a head or a page's beginning leave the frame as it was. */
  lemma {:induction false} AfterNone(id: nat, flat: seq<Entry>)
    requires FrameAfter(None, flat) == None
    ensures FrameAfter(Some(id), flat) == Some(id)
    decreases |flat|
  {
    if flat != [] {
      if Tag(None, flat[0]) != None {
        AfterKnown(Tag(None, flat[0]).value, flat[1..]);
      }
      AfterNone(id, flat[1..]);
    }
  }

  lemma {:induction false} AfterKnown(id: nat, flat: seq<Entry>)
    ensures FrameAfter(Some(id), flat) != None
    decreases |flat|
  {
    if flat != [] {
      AfterKnown(Tag(Some(id), flat[0]).value, flat[1..]);
    }
  }

  /** All of the frame has been passed: what follows begins with another frame's head, or nothing
      follows. */
  lemma {:induction false} FrameDone(h0: Held, e: Entry, h1: Held, traffic0: seq<seq<Job>>, h: Held, traffic: seq<seq<Job>>,
                                     gone: seq<Entry>, more: seq<Entry>, jobs: seq<Job>)
    requires e.Head? && ToDeliver(h0) == [e] + ToDeliver(h1) && Served(h1, traffic0, h, traffic, gone, more, jobs)
    requires NoHead(gone) && Starts(ToDeliver(h))
    ensures Served(h0, traffic0, h, traffic, [e] + gone, more, jobs)
    ensures Frames(ToDeliver(h0)) + Frames(more) == [Frame(e.id, e.num, Records(gone))] + Frames(ToDeliver(h))
    ensures Heads(ToDeliver(h0)) + Heads(more) == [e.id] + Heads(ToDeliver(h))
    ensures Frames(ToDeliver(h0)) != [] && Frames(ToDeliver(h0))[0] == Frame(e.id, e.num, Records(gone))
  {
    FirstFrame(e, ToDeliver(h1));
    hide ToDeliver, Pending, Frames, Heads, FromJobs, Records;
    assert ([e] + ToDeliver(h1)) + more == [e] + (ToDeliver(h1) + more) == ([e] + gone) + ToDeliver(h);
    FramesAppend(ToDeliver(h0), more);
    HeadsSuffix(ToDeliver(h0), more);
    FrameFirst(e, gone, ToDeliver(h));
    assert [e] + gone + ToDeliver(h) == ToDeliver(h0) + more;
    assert Frames(ToDeliver(h0))[0] == (Frames(ToDeliver(h0)) + Frames(more))[0];
  }

  lemma FirstFrame(e: Entry, flat: seq<Entry>)
    requires e.Head?
    ensures Frames([e] + flat) != []
  {
  }

  /** gtpframe_pipe_get_entry for the CPU chosen: the frame whose head the page address stands at is
      delivered with all its records, over as many pages as it spans.  The writer may have the lock
      of the ring before the pipe gets it. */
  method GetFrame(rb0: Rb, page0: Addr, id: nat, traffic0: seq<seq<Job>>, ghost h0: Held, ghost pages: set<Page>)
    returns (rb: Rb, page: Option<Addr>, num: nat, records: seq<Entry>, traffic: seq<seq<Job>>, ghost h: Held,
             ghost gone: seq<Entry>, ghost more: seq<Entry>, ghost jobs: seq<Job>)
    requires Ready(rb0, Some(page0), id, h0, pages) && id != 0 && Follows(h0, Pending(traffic0))
    ensures Ready(rb, page, 0, h, pages) && Follows(h, Pending(traffic))
    ensures Served(h0, traffic0, h, traffic, gone, more, jobs)
    ensures Frames(ToDeliver(h0)) + Frames(more) == [Frame(id, num, records)] + Frames(ToDeliver(h))
    ensures Heads(ToDeliver(h0)) + Heads(more) == [id] + Heads(ToDeliver(h))
    ensures Frames(ToDeliver(h0)) != [] && Frames(ToDeliver(h0))[0] == Frame(id, num, records)
    ensures IsFrame(gone, id, num, records) && Starts(ToDeliver(h))
  {
    hide Ready, ToDeliver, Frames, Heads, Records, FramePart, Scan, Stands, PageRing.GetPage, PageRing.PutPage, Effect;
    hide IsFrame, Content, Ordered, Served, Follows, Pending, FromJobs, Inside, NoHead, Starts;
    HeadDelivered(rb0, page0, id, h0, pages);
    NewerThanFrame(rb0, Some(page0), id, h0, pages, Pending(traffic0));
    var e := rb0.mem[page0];
    rb, num, records, traffic := rb0, e.num, [], traffic0;
    page := Some(Addr(page0.page, page0.off + 28));
    h, gone, more, jobs := Moved(h0, page.value, h0.out.value.entries[1..]), [], [], [];
    ghost var h1, before, gone', waiting, m, js := h, h, [], traffic, [], [];
    FollowsStill(h0, h, [e], Pending(traffic));
    ServedStart(h, traffic);
    NothingYet();
    while true
      invariant page.Some? && Inside(rb, page, id, h, pages) && Follows(h, Pending(traffic))
      invariant Served(h1, traffic0, h, traffic, gone, more, jobs) && NoHead(gone) && records == Records(gone)
      invariant forall x :: x in JobIds(Pending(traffic)) ==> id < x
      decreases |traffic|, |Content(h.v)| + |h.v.region|
    {
      InsideReady(rb, page, id, h, pages);
      ghost var v := h.v;
      var reason, at;
      ghost var rest, pages';
      before := h;
      reason, at, rest, pages' := Walk(rb.next, rb.mem, PageToRecord(id, 0), page.value, [h.out.value.entries],
                                       [h.out.value.page]);
      gone' := RecordReady(rb, page.value, id, h, pages, 0, 0, reason, at, rest);
      h, page := Moved(h, at, rest[0]), Some(at);
      gone := PassedMore(h1, traffic0, before, traffic, gone, more, jobs, h, gone');
      while reason == AtStep
        invariant page == Some(at) && Inside(rb, page, id, h, pages) && h.out.Some? && Follows(h, Pending(traffic))
        invariant h.v == v
        invariant Served(h1, traffic0, h, traffic, gone, more, jobs) && NoHead(gone) && records == Records(gone)
        invariant reason == AtStep ==>
          at in rb.mem && h.out.value.entries != [] && rb.mem[at] == h.out.value.entries[0] && Counted(rb.mem[at])
        invariant reason == AtStep || reason == AtNewEntry || reason == AtPageEnd
        invariant reason == AtNewEntry ==> Starts(ToDeliver(h))
        invariant reason == AtPageEnd ==> h.out.value.entries == []
        decreases |h.out.value.entries|, if reason == AtStep then 1 else 0
      {
        InsideReady(rb, page, id, h, pages);
        var record := rb.mem[at];
        before := h;
        reason, at, rest, pages' := Walk(rb.next, rb.mem, PageToRecord(id, 1), at, [h.out.value.entries],
                                         [h.out.value.page]);
        gone' := RecordReady(rb, page.value, id, h, pages, 1, 1, reason, at, rest);
        records := records + [record];
        h, page := Moved(h, at, rest[0]), Some(at);
        gone := PassedMore(h1, traffic0, before, traffic, gone, more, jobs, h, gone');
      }
      InsideReady(rb, page, id, h, pages);
      if reason == AtNewEntry {
        FrameDone(h0, e, h1, traffic0, h, traffic, gone, more, jobs);
        FrameHolds(e, gone);
        gone := [e] + gone;
        return;
      }
      ghost var rb1 := rb;
      before, waiting := h, traffic;
      rb, traffic, h, m, js := Arrive(rb, traffic, page, 0, h, pages);
      ArriveInside(rb1, page, id, before, waiting, pages, rb, h, traffic, m, js);
      ServedArrive(h1, traffic0, before, waiting, gone, more, jobs, h, traffic, m, js);
      more, jobs := more + m, jobs + js;
      GiveInside(rb, page.value, id, h, pages);
      before := h;
      rb, page := PageRing.PutPage(rb, page.value, true), None;
      h := Effect(false, h, GiveEmpty);
      gone := PassedNone(h1, traffic0, before, traffic, gone, more, jobs, h);
      before, waiting, rb1 := h, traffic, rb;
      InsideReady(rb, page, id, h, pages);
      rb, traffic, h, m, js := Arrive(rb, traffic, page, 0, h, pages);
      ArriveInside(rb1, page, id, before, waiting, pages, rb, h, traffic, m, js);
      ServedArrive(h1, traffic0, before, waiting, gone, more, jobs, h, traffic, m, js);
      more, jobs := more + m, jobs + js;
      TakeInside(rb, id, h, pages);
      before := h;
      var (rb', taken) := PageRing.GetPage(rb);
      rb, page := rb', taken;
      h := Effect(false, h, Take);
      gone := PassedNone(h1, traffic0, before, traffic, gone, more, jobs, h);
      if page.None? {
        InsideReady(rb, page, id, h, pages);
        NothingStarts();
        FrameDone(h0, e, h1, traffic0, h, traffic, gone, more, jobs);
        FrameHolds(e, gone);
        gone := [e] + gone;
        return;
      }
    }
  }

  lemma NothingYet()
    ensures NoHead([]) && Records([]) == []
  {
  }

  lemma NothingStarts()
    ensures Starts([])
  {
  }

  lemma {:induction false} PassedMore(h0: Held, traffic0: seq<seq<Job>>, h: Held, traffic: seq<seq<Job>>, gone: seq<Entry>,
                                      more: seq<Entry>, jobs: seq<Job>, h': Held, gone': seq<Entry>) returns (all: seq<Entry>)
    requires Served(h0, traffic0, h, traffic, gone, more, jobs) && ToDeliver(h) == gone' + ToDeliver(h')
    requires NoHead(gone) && NoHead(gone') && Follows(h, Pending(traffic))
    ensures Served(h0, traffic0, h', traffic, all, more, jobs) && NoHead(all) && Follows(h', Pending(traffic))
    ensures Records(all) == Records(gone) + Records(gone')
  {
    hide Served, Follows, ToDeliver, Records, Pending;
    all := gone + gone';
    ServedPassed(h0, traffic0, h, traffic, gone, more, jobs, h', gone');
    FollowsStill(h, h', gone', Pending(traffic));
    RecordsAppend(gone, gone');
  }

  lemma {:induction false} PassedNone(h0: Held, traffic0: seq<seq<Job>>, h: Held, traffic: seq<seq<Job>>, gone: seq<Entry>,
                                      more: seq<Entry>, jobs: seq<Job>, h': Held) returns (all: seq<Entry>)
    requires Served(h0, traffic0, h, traffic, gone, more, jobs) && ToDeliver(h) == ToDeliver(h')
    requires NoHead(gone) && Follows(h, Pending(traffic))
    ensures all == gone && Served(h0, traffic0, h', traffic, gone, more, jobs) && Follows(h', Pending(traffic))
  {
    hide Served, Follows, ToDeliver, Records, Pending;
    NothingGone(ToDeliver(h'));
    NothingYet();
    all := PassedMore(h0, traffic0, h, traffic, gone, more, jobs, h', []);
    all := gone;
    ServedPassed(h0, traffic0, h, traffic, gone, more, jobs, h', []);
    assert gone + [] == gone;
  }

  lemma {:induction false} ArriveInside(rb: Rb, page: Option<Addr>, id: nat, h: Held, traffic: seq<seq<Job>>,
                                        pages: set<Page>, rb': Rb, h': Held, traffic': seq<seq<Job>>,
                                        more: seq<Entry>, jobs: seq<Job>)
    requires Inside(rb, page, id, h, pages) && Ready(rb', page, 0, h', pages)
    requires ToDeliver(h') == ToDeliver(h) + more && Starts(more)
    requires forall x :: x in Heads(more) ==> x in JobIds(jobs)
    requires Pending(traffic) == jobs + Pending(traffic')
    requires forall x :: x in JobIds(Pending(traffic)) ==> id < x
    ensures Inside(rb', page, id, h', pages)
    ensures forall x :: x in JobIds(Pending(traffic')) ==> id < x
  {
    hide Inside, Ready, ToDeliver, Heads, Pending, Starts;
    IdsOfBoth(jobs, Pending(traffic'));
    forall x | x in JobIds(jobs) || x in JobIds(Pending(traffic')) ensures id < x {
      assert x in JobIds(Pending(traffic));
    }
    InsideLater(rb, page, id, h, pages, rb', h', more, jobs);
  }

  lemma InsideReady(rb: Rb, page: Option<Addr>, id: nat, h: Held, pages: set<Page>)
    requires Inside(rb, page, id, h, pages)
    ensures Ready(rb, page, 0, h, pages) && Links(rb) && h.v.region != [] && |RingOf(h.v)| >= 2
    ensures page.Some? <==> h.out.Some?
    ensures h.out.Some? ==> Stands(rb.next, rb.mem, None, page.value, [h.out.value.entries], [h.out.value.page])
  {
    ReadyRing(rb, page, 0, h, pages);
  }

  lemma GiveInside(rb: Rb, page: Addr, id: nat, h: Held, pages: set<Page>)
    requires Inside(rb, Some(page), id, h, pages) && h.out.Some? && h.out.value.entries == []
    ensures Links(rb) && h.v.region != [] && |RingOf(h.v)| >= 2
    ensures var h' := Effect(false, h, GiveEmpty);
            && Inside(PageRing.PutPage(rb, page, true), None, id, h', pages) && h'.out.None?
            && ToDeliver(h') == ToDeliver(h) && |h'.v.region| == |h.v.region| && Content(h'.v) == Content(h.v)
  {
    ReadyRing(rb, Some(page), 0, h, pages);
    GiveReady(rb, page, h, pages);
    assert ToDeliver(h) == Content(h.v) && ToDeliver(Effect(false, h, GiveEmpty)) == Content(Effect(false, h, GiveEmpty).v);
  }

  lemma TakeInside(rb: Rb, id: nat, h: Held, pages: set<Page>)
    requires Inside(rb, None, id, h, pages)
    ensures Links(rb) && h.v.region != [] && |RingOf(h.v)| >= 2 && h.out.None?
    ensures var (rb', page) := PageRing.GetPage(rb);
            var h' := Effect(false, h, Take);
            && Inside(rb', page, id, h', pages) && ToDeliver(h') == ToDeliver(h)
            && (page.None? ==> ToDeliver(h) == [])
            && (page.Some? ==> |h'.v.region| == if |h.v.region| == 1 then 1 else |h.v.region| - 1)
            && (page.Some? ==> |Content(h'.v)| + |h'.v.region| < |Content(h.v)| + |h.v.region|)
  {
    ReadyRing(rb, None, 0, h, pages);
    TakeReady(rb, h, pages);
    TakenContent(h.v);
    GetPageTakes(rb, h.v);
  }

  // ----- all CPUs -----

  /** The frames of one CPU, among those delivered with the CPU they came from. */
  function From(delivered: seq<(nat, Frame)>, c: nat): seq<Frame> {
    if delivered == [] then []
    else
      var last := delivered[|delivered| - 1];
      From(delivered[..|delivered| - 1], c) + if last.0 == c then [last.1] else []
  }

  function Ids(delivered: seq<(nat, Frame)>): (ids: seq<nat>)
    ensures |ids| == |delivered| && forall i :: 0 <= i < |ids| ==> ids[i] == delivered[i].1.id
  {
    seq(|delivered|, i requires 0 <= i < |delivered| => delivered[i].1.id)
  }

  function LeftOn(held: seq<Held>): (lists: seq<seq<nat>>)
    ensures |lists| == |held| && forall c :: 0 <= c < |lists| ==> lists[c] == Heads(ToDeliver(held[c]))
  {
    seq(|held|, c requires 0 <= c < |held| => Heads(ToDeliver(held[c])))
  }

  function FramesOn(held: seq<Held>): (frames: seq<seq<Frame>>)
    ensures |frames| == |held| && forall c :: 0 <= c < |frames| ==> frames[c] == Frames(ToDeliver(held[c]))
  {
    seq(|held|, c requires 0 <= c < |held| => Frames(ToDeliver(held[c])))
  }

  lemma {:induction false} FramesOnMean(held: seq<Held>)
    ensures forall c :: 0 <= c < |held| ==> FramesAre(ToDeliver(held[c]), FramesOn(held)[c])
  {
    hide ToDeliver, Frames, FramesAre;
    forall c | 0 <= c < |held| ensures FramesAre(ToDeliver(held[c]), FramesOn(held)[c]) {
      FramesMean(ToDeliver(held[c]));
    }
  }

  /** The ids on each CPU, those of frames to deliver and those the writer is still to give. */
  function IdLists(held: seq<Held>, traffic: seq<seq<seq<Job>>>): (lists: seq<seq<nat>>)
    requires |traffic| == |held|
    ensures |lists| == |held|
    ensures forall c :: 0 <= c < |lists| ==> lists[c] == Heads(ToDeliver(held[c])) + JobIds(Pending(traffic[c]))
  {
    seq(|held|, c requires 0 <= c < |held| => Heads(ToDeliver(held[c])) + JobIds(Pending(traffic[c])))
  }

  function AllPending(traffic: seq<seq<seq<Job>>>): (jobs: seq<seq<Job>>)
    ensures |jobs| == |traffic| && forall c :: 0 <= c < |jobs| ==> jobs[c] == Pending(traffic[c])
  {
    seq(|traffic|, c requires 0 <= c < |traffic| => Pending(traffic[c]))
  }

  /** The books of one CPU: `all` are the frames it ever had, at first those of `start`; the last of them
      are left to deliver; those since the start were written by the jobs of `plan` that are done. */
  ghost predicate Books(all: seq<Frame>, start: seq<Frame>, plan: seq<Job>, left: seq<Frame>, pending: seq<Job>) {
    && start <= all && |left| <= |all| && all[|all| - |left|..] == left
    && |pending| <= |plan| && plan[|plan| - |pending|..] == pending
    && FromJobs(all[|start|..], plan[..|plan| - |pending|])
  }

  lemma {:induction false} BooksStart(frames: seq<Frame>, jobs: seq<Job>)
    ensures Books(frames, frames, jobs, frames, jobs)
  {
    assert frames[|frames|..] == [] && jobs[..|jobs| - |jobs|] == [];
  }

  lemma {:induction false} BooksOn(all: seq<Frame>, start: seq<Frame>, plan: seq<Job>, left: seq<Frame>, pending: seq<Job>,
                                   passed: seq<Frame>, added: seq<Frame>, jobs: seq<Job>, left': seq<Frame>, pending': seq<Job>)
    requires Books(all, start, plan, left, pending)
    requires left + added == passed + left' && pending == jobs + pending' && FromJobs(added, jobs)
    ensures Books(all + added, start, plan, left', pending')
    ensures |left| <= |all| && |left'| <= |all + added|
    ensures (all + added)[..|all + added| - |left'|] == all[..|all| - |left|] + passed
  {
    hide FromJobs;
    var all', k := all + added, |plan| - |pending|;
    var before := all[..|all| - |left|];
    assert all' == before + (left + added) == (before + passed) + left';
    assert all'[|start|..] == all[|start|..] + added;
    assert plan == plan[..k] + (jobs + pending') == (plan[..k] + jobs) + pending';
    assert plan[..|plan| - |pending'|] == plan[..k] + jobs;
    FromMoreJobs(all[|start|..], plan[..k], added, jobs);
  }

  /** The ids of a CPU after a turn of the pipe are among those before it, and still increase. */
  lemma {:induction false} IdsLess(rb: Rb, page: Option<Addr>, id: nat, pages: set<Page>, h0: Held, traffic0: seq<seq<Job>>,
                                   h: Held, traffic: seq<seq<Job>>, gone: seq<Entry>, more: seq<Entry>, jobs: seq<Job>)
    requires Served(h0, traffic0, h, traffic, gone, more, jobs) && Ready(rb, page, id, h, pages)
             && Follows(h, Pending(traffic))
    ensures var ids0 := Heads(ToDeliver(h0)) + JobIds(Pending(traffic0));
            var ids := Heads(ToDeliver(h)) + JobIds(Pending(traffic));
            Increasing(ids) && forall x :: x in ids ==> x in ids0
  {
    HeadsOrdered(None, ToDeliver(h));
    HeadsBefore(None, ToDeliver(h));
    HeadsSuffix(ToDeliver(h0), more);
    HeadsSuffix(gone, ToDeliver(h));
    IdsOfBoth(jobs, Pending(traffic));
    hide Heads, ToDeliver, Pending, FrameAfter, Frames, FromJobs, JobOk, Ready;
    var heads, waiting := Heads(ToDeliver(h)), Pending(traffic);
    forall i, j | 0 <= i < j < |heads + JobIds(waiting)|
      ensures (heads + JobIds(waiting))[i] < (heads + JobIds(waiting))[j]
    {
      if i < |heads| <= j {
        assert heads[i] in heads && Newer(h, waiting[j - |heads|].id);
      }
    }
    forall x | x in heads + JobIds(waiting) ensures x in Heads(ToDeliver(h0)) + JobIds(Pending(traffic0)) {
      if x in heads {
        assert x in Heads(gone) + heads;
      }
    }
  }

  /** No head is newer than the frame the entries end in. */
  lemma {:induction false} HeadsBefore(cur: Option<nat>, flat: seq<Entry>)
    requires Ordered(cur, flat)
    ensures forall x :: x in Heads(flat) ==> FrameAfter(cur, flat).Some? && x <= FrameAfter(cur, flat).value
    decreases |flat|
  {
    if flat != [] {
      HeadsBefore(Tag(cur, flat[0]), flat[1..]);
      if flat[0].Head? {
        AfterNewer(flat[0].id, flat[1..]);
      }
    }
  }

  lemma {:induction false} MergeableLess(lists: seq<seq<nat>>, c: nat, list: seq<nat>)
    requires Mergeable(lists) && c < |lists| && Increasing(list) && forall x :: x in list ==> x in lists[c]
    ensures Mergeable(lists[c := list])
  {
    var lists' := lists[c := list];
    forall a, b, x | 0 <= a < |lists'| && 0 <= b < |lists'| && x in lists'[a] && x in lists'[b] ensures a == b {
      assert x in lists[a] && x in lists[b];
    }
  }

  /** The frames to deliver can be merged, whatever the writers are still to add. */
  lemma {:induction false} LeftMerges(held: seq<Held>, traffic: seq<seq<seq<Job>>>)
    requires |traffic| == |held| && Mergeable(IdLists(held, traffic))
    ensures Mergeable(LeftOn(held))
  {
    hide Heads, ToDeliver, Pending;
    var lists, left := IdLists(held, traffic), LeftOn(held);
    forall c | 0 <= c < |left| ensures Increasing(left[c]) && forall x :: x in left[c] ==> x in lists[c] {
      assert left[c] == lists[c][..|left[c]|];
    }
  }

  lemma BestSame(lists: seq<seq<nat>>, lists': seq<seq<nat>>, k: nat)
    requires k <= |lists| && k <= |lists'| && forall c :: 0 <= c < k ==> lists[c] == lists'[c]
    ensures Best(lists, k) == Best(lists', k)
  {
    if k > 0 {
      BestSame(lists, lists', k - 1);
    }
  }

  /** The pipe at a moment, CPU by CPU: ids and frames left to deliver, frames delivered, all frames the
      CPU ever had, and how many turns its writer has still to take. */
  datatype Tally = Tally(left: seq<seq<nat>>, frames: seq<seq<Frame>>, delivered: seq<seq<Frame>>, all: seq<seq<Frame>>,
                         waiting: seq<nat>)

  function Tallied(held: seq<Held>, all: seq<seq<Frame>>, traffic: seq<seq<seq<Job>>>): (t: Tally)
    requires |held| == |all| == |traffic|
    ensures Even(t, |held|) && t.all == all && t.left == LeftOn(held) && t.frames == FramesOn(held)
    ensures forall c :: 0 <= c < |held| ==> t.waiting[c] == |traffic[c]|
    ensures forall c :: 0 <= c < |held| && |t.frames[c]| <= |all[c]| ==>
              t.delivered[c] == all[c][..|all[c]| - |t.frames[c]|]
  {
    Tally(LeftOn(held), FramesOn(held),
          seq(|held|, c requires 0 <= c < |held| =>
            if |FramesOn(held)[c]| <= |all[c]| then all[c][..|all[c]| - |FramesOn(held)[c]|] else []),
          all, seq(|held|, c requires 0 <= c < |held| => |traffic[c]|))
  }

  lemma {:induction false} TallyUpdated(held: seq<Held>, all: seq<seq<Frame>>, traffic: seq<seq<seq<Job>>>, c: nat, h: Held,
                                        left: seq<seq<Job>>, passed: seq<Frame>, added: seq<Frame>)
    requires |held| == |all| == |traffic| && c < |held| && |Frames(ToDeliver(held[c]))| <= |all[c]|
    requires var frames := Frames(ToDeliver(h));
             && |frames| <= |all[c] + added|
             && (all[c] + added)[..|all[c] + added| - |frames|]
                == all[c][..|all[c]| - |Frames(ToDeliver(held[c]))|] + passed
    ensures Tallied(held[c := h], all[c := all[c] + added], traffic[c := left])
         == Updated(Tallied(held, all, traffic), c, Heads(ToDeliver(h)), Frames(ToDeliver(h)), passed, added, |left|)
  {
    hide ToDeliver, Frames, Heads;
    var t := Tallied(held[c := h], all[c := all[c] + added], traffic[c := left]);
    var u := Updated(Tallied(held, all, traffic), c, Heads(ToDeliver(h)), Frames(ToDeliver(h)), passed, added, |left|);
    assert t.left == u.left && t.frames == u.frames && t.all == u.all && t.waiting == u.waiting
           && t.delivered == u.delivered;
  }

  predicate Even(t: Tally, n: nat) {
    |t.left| == |t.frames| == |t.delivered| == |t.all| == |t.waiting| == n
  }

  /** Nothing was delivered; the writers may have added frames, if they had a turn. */
  ghost predicate Fed(t0: Tally, t: Tally) {
    var n := |t0.left|;
    && Even(t0, n) && Even(t, n) && t.delivered == t0.delivered
    && (forall c :: 0 <= c < n ==> t0.left[c] <= t.left[c] && t0.all[c] <= t.all[c] && t.waiting[c] <= t0.waiting[c])
    && (t.waiting == t0.waiting ==> t == t0)
  }

  lemma {:induction false} FedTwice(t0: Tally, t1: Tally, t2: Tally)
    requires Fed(t0, t1) && Fed(t1, t2)
    ensures Fed(t0, t2)
  {
    var n := |t0.left|;
    if t2.waiting == t0.waiting {
      assert forall c :: 0 <= c < n ==> t2.waiting[c] <= t1.waiting[c] <= t0.waiting[c];
      assert t1.waiting == t0.waiting;
    }
  }

  lemma NotFed(t: Tally)
    requires Even(t, |t.left|)
    ensures Fed(t, t)
  {
  }

  /** CPU c has these to deliver now. */
  function Updated(t: Tally, c: nat, left: seq<nat>, frames: seq<Frame>, passed: seq<Frame>, added: seq<Frame>,
                   waiting: nat): Tally
    requires Even(t, |t.left|) && c < |t.left|
  {
    Tally(t.left[c := left], t.frames[c := frames], t.delivered[c := t.delivered[c] + passed], t.all[c := t.all[c] + added],
          t.waiting[c := waiting])
  }

  lemma NoneMore<T>(lists: seq<seq<T>>, c: nat)
    requires c < |lists|
    ensures lists[c := lists[c] + []] == lists
  {
    assert lists[c] + [] == lists[c];
  }

  lemma {:induction false} FedAt(t: Tally, c: nat, left: seq<nat>, frames: seq<Frame>, added: seq<Frame>, waiting: nat)
    requires Even(t, |t.left|) && c < |t.left| && t.left[c] <= left && waiting <= t.waiting[c]
    requires waiting == t.waiting[c] ==> left == t.left[c] && frames == t.frames[c] && added == []
    ensures Fed(t, Updated(t, c, left, frames, [], added, waiting))
  {
    var t' := Updated(t, c, left, frames, [], added, waiting);
    NoneMore(t.delivered, c);
    if t'.waiting == t.waiting {
      assert t'.waiting[c] == waiting;
      NoneMore(t.all, c);
      assert t'.left == t.left && t'.frames == t.frames;
    }
  }

  /** Frame f of CPU c was delivered: none that was there before is older. */
  ghost predicate Took(t0: Tally, t: Tally, c: nat, f: Frame) {
    var n := |t0.left|;
    && Even(t0, n) && Even(t, n) && c < n && t.delivered == t0.delivered[c := t0.delivered[c] + [f]]
    && (forall d :: 0 <= d < n ==> t0.all[d] <= t.all[d] && t.waiting[d] <= t0.waiting[d])
    && (forall d, id :: 0 <= d < n && id in t0.left[d] ==> f.id <= id)
    && (t.waiting == t0.waiting ==> t.all == t0.all && Merged(t0.left) == [f.id] + Merged(t.left))
  }

  lemma {:induction false} TookAfter(t0: Tally, t1: Tally, c: nat, f: Frame, left: seq<nat>, frames: seq<Frame>,
                                     added: seq<Frame>, waiting: nat)
    requires Fed(t0, t1) && c < |t1.left| && Best(t1.left, |t1.left|) == Some(c) && Mergeable(t1.left)
    requires f.id == t1.left[c][0] && waiting <= t1.waiting[c]
    requires waiting == t1.waiting[c] ==> left == t1.left[c][1..] && added == []
    ensures Took(t0, Updated(t1, c, left, frames, [f], added, waiting), c, f)
  {
    hide Best, Merged, Mergeable;
    var t := Updated(t1, c, left, frames, [f], added, waiting);
    LeastOfOld(t1.left, t0.left, c);
    MergedStep(t1.left);
    if t.waiting == t0.waiting {
      assert forall d :: 0 <= d < |t.waiting| ==> t.waiting[d] <= t1.waiting[d] <= t0.waiting[d];
      assert t1.waiting == t0.waiting && t.waiting[c] == waiting;
      NoneMore(t1.all, c);
    }
  }

  /** Nothing is left to deliver on the first k CPUs, and their writers had a turn, if they had one to
      take. */
  ghost predicate RanDry(t0: Tally, t: Tally, k: nat) {
    && Even(t, |t0.left|) && Even(t0, |t0.left|) && k <= |t0.left|
    && forall c :: 0 <= c < k ==> DryAt(t0, t, c)
  }

  ghost predicate DryAt(t0: Tally, t: Tally, c: nat)
    requires Even(t, |t0.left|) && Even(t0, |t0.left|) && c < |t0.left|
  {
    t.left[c] == [] && t.frames[c] == [] && (t0.waiting[c] > 0 ==> t.waiting[c] < t0.waiting[c])
  }

  /** One CPU more, and the others as they were. */
  lemma {:induction false} DryNext(t0: Tally, t1: Tally, t: Tally, k: nat)
    requires RanDry(t0, t1, k) && Even(t, |t0.left|) && k < |t0.left| && t1.waiting[k] == t0.waiting[k]
    requires forall d :: 0 <= d < k ==>
      t.left[d] == t1.left[d] && t.frames[d] == t1.frames[d] && t.waiting[d] == t1.waiting[d]
    requires DryAt(t1, t, k)
    ensures RanDry(t0, t, k + 1)
  {
    forall c | 0 <= c < k ensures DryAt(t0, t, c) {
      assert DryAt(t0, t1, c);
    }
  }

  /** The least so far, with one CPU more. */
  lemma {:induction false} BestNext(left0: seq<seq<nat>>, left: seq<seq<nat>>, c: nat, minId: nat)
    requires c < |left0| == |left| && forall d :: 0 <= d < c ==> left[d] == left0[d]
    requires minId == var b := Best(left0, c); if b.None? then ULLONG_MAX else left0[b.value][0]
    requires left[c] != [] ==> left[c][0] < ULLONG_MAX
    ensures var b := Best(left0, c);
            && Best(left, c + 1) == (if left[c] != [] && left[c][0] < minId then Some(c) else b)
            && (b.Some? ==> left[b.value] == left0[b.value])
  {
    BestSame(left0, left, c);
  }

  function Sum(waiting: seq<nat>): nat {
    if waiting == [] then 0 else waiting[0] + Sum(waiting[1..])
  }

  lemma {:induction false} SumFalls(waiting: seq<nat>, waiting': seq<nat>)
    requires |waiting'| == |waiting| && forall c :: 0 <= c < |waiting| ==> waiting'[c] <= waiting[c]
    ensures Sum(waiting') <= Sum(waiting)
    ensures Sum(waiting') == Sum(waiting) ==> waiting' == waiting
    decreases |waiting|
  {
    if waiting != [] {
      SumFalls(waiting[1..], waiting'[1..]);
      if Sum(waiting') == Sum(waiting) {
        assert waiting' == [waiting'[0]] + waiting'[1..] && waiting == [waiting[0]] + waiting[1..];
      }
    }
  }

  /** Since `t0` these were delivered, in this order. */
  ghost predicate Walked(t0: Tally, t: Tally, delivered: seq<(nat, Frame)>) {
    var n := |t0.left|;
    && Even(t0, n) && Even(t, n)
    && (forall c :: 0 <= c < n ==>
         t.delivered[c] == t0.delivered[c] + From(delivered, c) && t0.all[c] <= t.all[c] && t.waiting[c] <= t0.waiting[c])
    && (Sum(t0.waiting) == 0 ==> t.all == t0.all && Merged(t0.left) == Ids(delivered) + Merged(t.left))
  }

  lemma {:induction false} WalkedStart(t: Tally)
    requires Even(t, |t.left|)
    ensures Walked(t, t, [])
  {
    hide Merged;
    assert forall c :: 0 <= c < |t.left| ==> t.delivered[c] + From([], c) == t.delivered[c];
    assert Ids([]) + Merged(t.left) == Merged(t.left);
  }

  lemma {:induction false} WalkedFed(t0: Tally, t1: Tally, t2: Tally, delivered: seq<(nat, Frame)>)
    requires Walked(t0, t1, delivered) && Fed(t1, t2)
    ensures Walked(t0, t2, delivered)
  {
    hide Merged, From, Ids;
    SumOfNone(t0.waiting);
    if Sum(t0.waiting) == 0 {
      assert forall c :: 0 <= c < |t0.left| ==> t2.waiting[c] <= t1.waiting[c] <= t0.waiting[c] == 0;
      assert t2.waiting == t1.waiting;
    }
  }

  lemma {:induction false} WalkedTook(t0: Tally, t1: Tally, t2: Tally, delivered: seq<(nat, Frame)>, c: nat, f: Frame)
    requires Walked(t0, t1, delivered) && Took(t1, t2, c, f)
    ensures Walked(t0, t2, delivered + [(c, f)])
  {
    hide Merged, From, Sum;
    var more := delivered + [(c, f)];
    SumOfNone(t0.waiting);
    forall d | 0 <= d < |t0.left| ensures t2.delivered[d] == t0.delivered[d] + From(more, d) {
      FromMore(delivered, (c, f), d);
      NoneAfter(t1.delivered[d]);
    }
    if Sum(t0.waiting) == 0 {
      assert forall d :: 0 <= d < |t0.left| ==> t2.waiting[d] <= t1.waiting[d] <= t0.waiting[d] == 0;
      assert t2.waiting == t1.waiting;
      assert Ids(more) == Ids(delivered) + [f.id];
    }
  }

  lemma NoneAfter(frames: seq<Frame>)
    ensures frames + [] == frames
  {
  }

  lemma AllDry(t0: Tally, t: Tally)
    requires RanDry(t0, t, |t0.left|)
    ensures |t.left| == |t.frames| == |t0.left| && forall c :: 0 <= c < |t.left| ==> t.left[c] == [] && t.frames[c] == []
  {
    forall c | 0 <= c < |t.left| ensures t.left[c] == [] && t.frames[c] == [] {
      assert DryAt(t0, t, c);
    }
  }

  /** Nothing is left: all frames were delivered, those of the merge if no writer was at work. */
  lemma {:induction false} WalkedEnd(t0: Tally, t: Tally, delivered: seq<(nat, Frame)>)
    requires Walked(t0, t, delivered) && forall c :: 0 <= c < |t.left| ==> t.left[c] == [] && t.frames[c] == []
    requires forall c :: 0 <= c < |t.left| ==> t.delivered[c] + t.frames[c] == t.all[c]
    requires forall c :: 0 <= c < |t0.left| ==> t0.delivered[c] + t0.frames[c] == t0.all[c]
    ensures forall c :: 0 <= c < |t0.left| ==> t0.delivered[c] + From(delivered, c) == t.all[c] && t0.all[c] <= t.all[c]
    ensures (forall c :: 0 <= c < |t0.left| ==> t0.waiting[c] == 0) ==>
      && t.all == t0.all && Ids(delivered) == Merged(t0.left)
      && (forall c :: 0 <= c < |t0.left| ==> From(delivered, c) == t0.frames[c])
  {
    hide From;
    SumOfNone(t0.waiting);
    NoneMerged(t.left);
    hide Merged;
    forall c | 0 <= c < |t0.left| ensures t0.delivered[c] + From(delivered, c) == t.all[c] {
      NoneAfter(t.delivered[c]);
    }
    if forall c :: 0 <= c < |t0.left| ==> t0.waiting[c] == 0 {
      assert Ids(delivered) + [] == Ids(delivered);
      forall c | 0 <= c < |t0.left| ensures From(delivered, c) == t0.frames[c] {
        assert t0.all[c] == t0.delivered[c] + From(delivered, c) == t0.delivered[c] + t0.frames[c];
        assert From(delivered, c) == t0.all[c][|t0.delivered[c]|..] == t0.frames[c];
      }
    }
  }

  lemma NoneMerged(lists: seq<seq<nat>>)
    requires forall c :: 0 <= c < |lists| ==> lists[c] == []
    ensures Merged(lists) == []
  {
  }

  /** A turn at which nothing was left to deliver: some writer had its turn, or none has one left. */
  lemma {:induction false} DryFalls(t0: Tally, t: Tally)
    requires RanDry(t0, t, |t0.left|) && Fed(t0, t)
    ensures Sum(t.waiting) < Sum(t0.waiting) || (t == t0 && forall c :: 0 <= c < |t.left| ==> t.waiting[c] == 0)
  {
    SumFalls(t0.waiting, t.waiting);
    forall c | 0 <= c < |t.left| && t.waiting[c] > 0 ensures t.waiting != t0.waiting {
      assert DryAt(t0, t, c);
    }
  }

  /** A frame delivered: some writer had its turn, or one frame less is left. */
  lemma {:induction false} TookFalls(t0: Tally, t: Tally, c: nat, f: Frame)
    requires Took(t0, t, c, f)
    ensures Sum(t.waiting) < Sum(t0.waiting)
         || (Sum(t.waiting) == Sum(t0.waiting) && |Merged(t.left)| < |Merged(t0.left)|)
  {
    SumFalls(t0.waiting, t.waiting);
  }

  lemma {:induction false} SumOfNone(waiting: seq<nat>)
    ensures Sum(waiting) == 0 <==> forall c :: 0 <= c < |waiting| ==> waiting[c] == 0
    decreases |waiting|
  {
    if waiting != [] {
      SumOfNone(waiting[1..]);
      assert forall c :: 0 < c < |waiting| ==> waiting[c] == waiting[1..][c - 1];
    }
  }

  /** struct gtpframe_pipe_s and the rings of all CPUs: for each CPU the page taken from it and the id of
      the frame to deliver next.  The writer of a CPU can act on its ring whenever the pipe does not
      hold that ring's lock: `traffic` is what it does before each of the pipe's next turns there. */
  class Pipe {
    const rbs: array<Rb>
    const page: array<Option<Addr>>
    const pageId: array<nat>
    const traffic: array<seq<seq<Job>>>
    ghost var held: seq<Held>
    ghost var all: seq<seq<Frame>>    // the frames held at the start and those written since
    ghost const pages: seq<set<Page>>
    ghost const start: seq<seq<Frame>>
    ghost const plan: seq<seq<Job>>

    constructor (rbs: array<Rb>, traffic: array<seq<seq<Job>>>, ghost held: seq<Held>, ghost pages: seq<set<Page>>)
      requires |held| == rbs.Length == |pages| == traffic.Length
      requires forall c :: 0 <= c < rbs.Length ==>
        Ready(rbs[c], None, 0, held[c], pages[c]) && Follows(held[c], Pending(traffic[c]))
      requires Mergeable(IdLists(held, traffic[..]))
      ensures Valid() && this.rbs == rbs && this.traffic == traffic && this.held == held && this.pages == pages
      ensures start == all == FramesOn(held) && |plan| == |held|
      ensures forall c :: 0 <= c < |held| ==> FramesAre(ToDeliver(held[c]), start[c])
      ensures forall c :: 0 <= c < |held| ==> plan[c] == Pending(traffic[c]) && Now().delivered[c] == []
      ensures fresh(page) && fresh(pageId)
    {
      hide Ready, Mergeable, Follows, Heads, ToDeliver, Pending, Frames, Books, FramesAre;
      FramesOnMean(held);
      this.rbs, this.traffic, this.held, this.pages := rbs, traffic, held, pages;
      all, start := FramesOn(held), FramesOn(held);
      plan := AllPending(traffic[..]);
      page := new Option<Addr>[rbs.Length](_ => None);
      pageId := new nat[rbs.Length](_ => 0);
      new;
      forall c | 0 <= c < |held| ensures Books(all[c], start[c], plan[c], FramesOn(held)[c], Pending(traffic[c])) {
        BooksStart(FramesOn(held)[c], Pending(traffic[c]));
      }
    }

    ghost predicate Valid()
      reads this, rbs, page, pageId, traffic
    {
      && rbs.Length == page.Length == pageId.Length == traffic.Length == |held| == |pages|
      && |all| == |start| == |plan| == |held|
      && (forall c :: 0 <= c < rbs.Length ==> Ready(rbs[c], page[c], pageId[c], held[c], pages[c]))
      && (forall c :: 0 <= c < rbs.Length ==> Follows(held[c], Pending(traffic[c])))
      && (forall c :: 0 <= c < |held| ==> Books(all[c], start[c], plan[c], FramesOn(held)[c], Pending(traffic[c])))
      && Mergeable(IdLists(held, traffic[..]))
    }

    ghost function Now(): (t: Tally)
      requires Valid()
      reads this, rbs, page, pageId, traffic
      ensures rbs.Length == page.Length == pageId.Length == traffic.Length == |held|
      ensures Even(t, |held|) && t.all == all && t.left == LeftOn(held) && t.frames == FramesOn(held)
      ensures forall c :: 0 <= c < |held| ==> t.delivered[c] + t.frames[c] == all[c] && t.waiting[c] == |traffic[c]|
    {
      Tallied(held, all, traffic[..])
    }

    /** What a turn of the pipe at CPU c comes to. */
    method Settle(c: nat, rb: Rb, at: Option<Addr>, id: nat, left: seq<seq<Job>>, ghost h: Held, ghost gone: seq<Entry>,
                  ghost more: seq<Entry>, ghost jobs: seq<Job>, ghost passed: seq<Frame>)
      requires Valid() && c < rbs.Length && Ready(rb, at, id, h, pages[c]) && Follows(h, Pending(left))
      requires Served(held[c], traffic[c], h, left, gone, more, jobs)
      requires Frames(ToDeliver(held[c])) + Frames(more) == passed + Frames(ToDeliver(h))
      modifies this`held, this`all, rbs, page, pageId, traffic
      ensures Valid() && held == old(held)[c := h]
      ensures Now() == Updated(old(Now()), c, Heads(ToDeliver(h)), Frames(ToDeliver(h)), passed, Frames(more), |left|)
      ensures rbs[c] == rb && page[c] == at && pageId[c] == id && traffic[c] == left
      ensures forall d :: 0 <= d < rbs.Length && d != c ==>
        page[d] == old(page[d]) && pageId[d] == old(pageId[d]) && traffic[d] == old(traffic[d])
    {
      hide Ready, Mergeable, Follows, Heads, ToDeliver, Pending, Frames, Books, Served, Increasing, FromJobs;
      ghost var before := IdLists(held, traffic[..]);
      IdsLess(rb, at, id, pages[c], held[c], traffic[c], h, left, gone, more, jobs);
      MergeableLess(before, c, Heads(ToDeliver(h)) + JobIds(Pending(left)));
      ServedBooks(held[c], traffic[c], h, left, gone, more, jobs);
      BooksOn(all[c], start[c], plan[c], FramesOn(held)[c], Pending(traffic[c]), passed, Frames(more), jobs,
              Frames(ToDeliver(h)), Pending(left));
      TallyUpdated(held, all, traffic[..], c, h, left, passed, Frames(more));
      held, all := held[c := h], all[c := all[c] + Frames(more)];
      rbs[c], page[c], pageId[c], traffic[c] := rb, at, id, left;
      assert traffic[..] == old(traffic[..])[c := left];
      assert IdLists(held, traffic[..]) == before[c := Heads(ToDeliver(h)) + JobIds(Pending(left))];
    }

    /** The turn of gtpframe_pipe_peek for one CPU. */
    method PeekCpu(c: nat)
      requires Valid() && c < rbs.Length
      modifies this`held, this`all, rbs, page, pageId, traffic
      ensures Valid() && |held| == |old(held)| && Fed(old(Now()), Now())
      ensures forall d :: 0 <= d < |held| && d != c ==>
        && Now().left[d] == old(Now()).left[d] && Now().frames[d] == old(Now()).frames[d]
        && Now().waiting[d] == old(Now()).waiting[d]
        && pageId[d] == old(pageId[d]) && page[d] == old(page[d])
      ensures pageId[c] == 0 ==>
        DryAt(old(Now()), Now(), c) && Now().left[c] == [] && page[c].None?
      ensures pageId[c] != 0 ==>
        page[c].Some? && Now().left[c] != [] && pageId[c] == Now().left[c][0] && pageId[c] < ULLONG_MAX
    {
      hide Ready, ToDeliver, Frames, Heads, Mergeable, Follows, Served, Books, Pending, Fed, IdLists;
      ghost var t := Now();
      NotFed(t);
      if pageId[c] == 0 {
        ghost var h, gone, more, jobs;
        var rb, at, id, left;
        rb, at, id, left, h, gone, more, jobs := NextHead(rbs[c], page[c], traffic[c], held[c], pages[c]);
        NothingBefore(Frames(ToDeliver(h)));
        ServedOrNot(held[c], traffic[c], h, left, gone, more, jobs);
        FedAt(t, c, Heads(ToDeliver(h)), Frames(ToDeliver(h)), Frames(more), |left|);
        Settle(c, rb, at, id, left, h, gone, more, jobs, []);
        EndOrHead(rb, at, id, h, pages[c]);
        NothingToDeliver(h);
      }
      HeadKnown(rbs[c], page[c], pageId[c], held[c], pages[c]);
    }

    /** gtpframe_pipe_peek: the CPU whose next frame has the least id, if any has a frame. */
    method Peek() returns (cpu: Option<nat>)
      requires Valid()
      modifies this`held, this`all, rbs, page, pageId, traffic
      ensures Valid() && |held| == |old(held)| && Fed(old(Now()), Now())
      ensures cpu == Best(Now().left, |held|)
      ensures cpu.Some? ==>
        cpu.value < rbs.Length && pageId[cpu.value] == Now().left[cpu.value][0] > 0 && page[cpu.value].Some?
      ensures cpu.None? ==> RanDry(old(Now()), Now(), |held|) && forall c :: 0 <= c < rbs.Length ==> page[c].None?
    {
      hide Ready, ToDeliver, Frames, Heads, LeftOn, FramesOn, Mergeable, Follows, Books, Pending, IdLists, Fed;
      hide Tallied, Valid;
      hide Best, RanDry;
      var minId := ULLONG_MAX;
      ghost var t0 := Now();
      NotFed(t0);
      NoneSeen(t0);
      cpu := None;
      for c := 0 to rbs.Length
        invariant Valid() && |held| == |old(held)| && Fed(t0, Now())
        invariant forall d :: c <= d < |held| ==> Now().waiting[d] == t0.waiting[d]
        invariant cpu == Best(Now().left, c)
        invariant minId == if cpu.None? then ULLONG_MAX else Now().left[cpu.value][0]
        invariant cpu.Some? ==> pageId[cpu.value] == Now().left[cpu.value][0] > 0 && page[cpu.value].Some?
        invariant cpu.None? ==> RanDry(t0, Now(), c) && forall d :: 0 <= d < c ==> page[d].None?
      {
        ghost var t := Now();
        PeekCpu(c);
        FedTwice(t0, t, Now());
        BestNext(t.left, Now().left, c, minId);
        if cpu.None? && pageId[c] == 0 {
          DryNext(t0, t, Now(), c);
        }
        if pageId[c] != 0 && pageId[c] < minId {
          minId := pageId[c];
          cpu := Some(c);
        }
      }
    }

    /** gtpframe_pipe_get_entry, without the wait when there is no frame.  A whole frame is delivered, the
        next of its CPU and no newer than any that was there when the turn began; with no writer at
        work it is the one with the least id. */
    method GetEntry() returns (delivered: Option<(nat, Frame)>)
      requires Valid()
      modifies this`held, this`all, rbs, page, pageId, traffic
      ensures Valid() && |held| == |old(held)|
      ensures match delivered
              case Some((c, f)) => Took(old(Now()), Now(), c, f)
              case None => && Fed(old(Now()), Now()) && RanDry(old(Now()), Now(), |held|)
                           && forall c :: 0 <= c < rbs.Length ==> page[c].None?
    {
      hide Ready, ToDeliver, Frames, Heads, Mergeable, Merged, Follows, Books, Pending, Served, IdLists, Fed, RanDry;
      hide Tallied;
      hide Took, Updated, Best, LeftOn, FramesOn;
      ghost var t0 := Now();
      var cpu := Peek();
      ghost var t := Now();
      if cpu.None? {
        return None;
      }
      var c := cpu.value;
      LeftMerges(held, traffic[..]);
      HeadKnown(rbs[c], page[c], pageId[c], held[c], pages[c]);
      var rb, at, num, records, batches;
      ghost var h, gone, more, jobs;
      var id := pageId[c];
      rb, at, num, records, batches, h, gone, more, jobs :=
        GetFrame(rbs[c], page[c].value, id, traffic[c], held[c], pages[c]);
      ServedOrNot(held[c], traffic[c], h, batches, gone, more, jobs);
      HeadGone(Heads(ToDeliver(held[c])), Heads(more), id, Heads(ToDeliver(h)));
      TookAfter(t0, t, c, Frame(id, num, records), Heads(ToDeliver(h)), Frames(ToDeliver(h)), Frames(more), |batches|);
      Settle(c, rb, at, 0, batches, h, gone, more, jobs, [Frame(id, num, records)]);
      return Some((c, Frame(id, num, records)));
    }

    /** No frame is left, no page is out, and no writer has anything to do. */
    ghost predicate RunOut()
      requires Valid()
      reads this, rbs, page, pageId, traffic
    {
      forall c :: 0 <= c < |held| ==> page[c].None? && traffic[c] == [] && Now().frames[c] == [] && Now().left[c] == []
    }

    lemma LeftInOrder()
      requires Valid()
      ensures Increasing(Merged(Now().left)) && forall id :: id in Merged(Now().left) <==> InSome(Now().left, id)
    {
      LeftMerges(held, traffic[..]);
      MergedInOrder(LeftOn(held));
    }

    /** All jobs are done, and the frames since the start are theirs. */
    lemma DrainedBooks()
      requires Valid() && RunOut()
      ensures forall c :: 0 <= c < |held| ==> start[c] <= all[c] && FromJobs(all[c][|start[c]|..], plan[c])
    {
      hide Ready, Follows, FromJobs, Mergeable, IdLists;
      forall c | 0 <= c < |held| ensures start[c] <= all[c] && FromJobs(all[c][|start[c]|..], plan[c]) {
        assert Books(all[c], start[c], plan[c], FramesOn(held)[c], Pending(traffic[c]));
        assert Pending(traffic[c]) == [];
        assert plan[c][..|plan[c]|] == plan[c];
      }
    }

    /** Draining until nothing is left to deliver and no writer has anything left to do.  Every frame a
        CPU held at the start, and every frame written to it on the way, comes out once and in order
        with all its records; every page is back in its ring at the end.  With no writer at work the
        frames of all CPUs come out in increasing id. */
    method Drain() returns (delivered: seq<(nat, Frame)>)
      requires Valid()
      modifies this`held, this`all, rbs, page, pageId, traffic
      ensures Valid() && |held| == |old(held)|
      ensures forall c :: 0 <= c < |held| ==> page[c].None? && traffic[c] == []
      ensures forall c :: 0 <= c < |held| ==>
        old(Now()).delivered[c] + From(delivered, c) == all[c] && old(all)[c] <= all[c]
      ensures forall c :: 0 <= c < |held| ==> start[c] <= all[c] && FromJobs(all[c][|start[c]|..], plan[c])
      ensures (forall c :: 0 <= c < |held| ==> old(traffic[c]) == []) ==>
        && all == old(all) && Ids(delivered) == Merged(old(LeftOn(held))) && Increasing(Ids(delivered))
        && (forall c :: 0 <= c < |held| ==> From(delivered, c) == old(FramesOn(held))[c])
        && (forall c :: 0 <= c < |held| ==> FramesAre(old(ToDeliver(held[c])), From(delivered, c)))
        && (forall id :: id in Ids(delivered) <==> InSome(old(LeftOn(held)), id))
    {
      hide Ready, ToDeliver, Frames, Heads, LeftOn, FramesOn, From, Merged, Mergeable, Increasing, InSome, Follows;
      hide Books, Pending;
      hide IdLists, FromJobs, Fed, Took, RanDry, Walked, Tallied, Sum, Ids, Valid, FramesAre;
      FramesOnMean(held);
      delivered := [];
      ghost var t0 := Now();
      LeftInOrder();
      WalkedStart(t0);
      var done := false;
      while !done
        invariant Valid() && |held| == |old(held)| && Walked(t0, Now(), delivered)
        invariant done ==> RunOut()
        decreases Sum(Now().waiting), |Merged(Now().left)|, if done then 0 else 1
      {
        ghost var t := Now();
        var d := GetEntry();
        match d
        case Some((c, f)) =>
          WalkedTook(t0, t, Now(), delivered, c, f);
          TookFalls(t, Now(), c, f);
          delivered := delivered + [(c, f)];
        case None =>
          WalkedFed(t0, t, Now(), delivered);
          DryFalls(t, Now());
          AllDry(t, Now());
          done := forall c | 0 <= c < traffic.Length :: traffic[c] == [];
          if !done {
            ghost var c :| 0 <= c < traffic.Length && traffic[c] != [];
            assert Now().waiting[c] != 0;
          }
      }
      DrainedBooks();
      WalkedEnd(t0, Now(), delivered);
    }
  }

  lemma NothingBefore(frames: seq<Frame>)
    ensures [] + frames == frames
  {
  }

  lemma NothingToDeliver(h: Held)
    ensures ToDeliver(h) == [] ==> Frames(ToDeliver(h)) == [] && Heads(ToDeliver(h)) == []
  {
  }

  /** If the writer had no turn, nothing was added. */
  lemma ServedOrNot(h0: Held, traffic0: seq<seq<Job>>, h: Held, traffic: seq<seq<Job>>, gone: seq<Entry>, more: seq<Entry>,
                    jobs: seq<Job>)
    requires Served(h0, traffic0, h, traffic, gone, more, jobs)
    ensures |traffic| <= |traffic0|
    ensures |traffic| == |traffic0| ==> more == [] && Frames(more) == [] && Heads(more) == []
  {
    hide ToDeliver, Pending, FromJobs;
  }

  lemma NoneSeen(t: Tally)
    ensures Best(t.left, 0) == None && (Even(t, |t.left|) ==> RanDry(t, t, 0))
  {
  }

  lemma {:induction false} LeastOfOld(left: seq<seq<nat>>, left0: seq<seq<nat>>, c: nat)
    requires Mergeable(left) && Best(left, |left|) == Some(c)
    requires |left0| == |left| && forall d :: 0 <= d < |left| ==> left0[d] <= left[d]
    ensures forall d, id :: 0 <= d < |left0| && id in left0[d] ==> left[c][0] <= id
  {
    forall d, id | 0 <= d < |left0| && id in left0[d] ensures left[c][0] <= id {
      assert id in left[d];
      assert left[d][0] <= id;
    }
  }

  lemma HeadGone(heads: seq<nat>, added: seq<nat>, id: nat, left: seq<nat>)
    requires heads + added == [id] + left
    ensures added == [] ==> heads != [] && left == heads[1..]
  {
    if added == [] {
      assert heads + [] == heads;
    }
  }

  lemma ServedBooks(h0: Held, traffic0: seq<seq<Job>>, h: Held, traffic: seq<seq<Job>>, gone: seq<Entry>, more: seq<Entry>,
                    jobs: seq<Job>)
    requires Served(h0, traffic0, h, traffic, gone, more, jobs)
    ensures Pending(traffic0) == jobs + Pending(traffic) && FromJobs(Frames(more), jobs)
  {
    hide ToDeliver, Pending, Frames, Heads, FromJobs;
  }

  lemma FromMore(delivered: seq<(nat, Frame)>, d: (nat, Frame), c: nat)
    ensures From(delivered + [d], c) == From(delivered, c) + if d.0 == c then [d.1] else []
  {
    assert (delivered + [d])[..|delivered|] == delivered;
  }

  lemma EndOrHead(rb: Rb, page: Option<Addr>, id: nat, h: Held, pages: set<Page>)
    requires Ready(rb, page, id, h, pages) && (id == 0 ==> ToDeliver(h) == [])
    ensures id == 0 ==> Heads(ToDeliver(h)) == []
  {
  }

  lemma HeadKnown(rb: Rb, page: Option<Addr>, id: nat, h: Held, pages: set<Page>)
    requires Ready(rb, page, id, h, pages)
    ensures id != 0 ==> page.Some? && Heads(ToDeliver(h)) != [] && Heads(ToDeliver(h))[0] == id && id < ULLONG_MAX
  {
    if id != 0 {
      assert ToDeliver(h)[0] == h.out.value.entries[0];
      assert Heads(ToDeliver(h))[0] in Heads(ToDeliver(h));
    }
  }
}
