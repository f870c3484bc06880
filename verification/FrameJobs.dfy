/**
 The writer of a CPU as the pipe sees it: gtp_handler holds the lock of its CPU's ring from the head of
 a frame to the end of its actions, so between two turns of the pipe it writes whole frames.
 */
module FrameJobs {
  import opened Options
  import opened PageRing
  import opened PageRuns
  import opened PageWalk
  import opened FrameRead
  import opened Delivery

  /** One hit of a tracepoint: the frame's id and number, the head it is linked back to, and its
      records.  `torn` is the room of a block given back because memory could not be read. */
  datatype Job = Job(id: nat, num: nat, prev: Option<Addr>, records: seq<Entry>, torn: Option<nat>)

  predicate JobOk(job: Job) {
    0 < job.id < ULLONG_MAX && forall i :: 0 <= i < |job.records| ==> Counted(job.records[i])
  }

  function HeadOf(job: Job): Entry {
    Head(job.id, job.num, job.prev)
  }

  /** No frame with something left to deliver is as new. */
  ghost predicate Newer(h: Held, id: nat) {
    FrameAfter(None, ToDeliver(h)).Some? ==> FrameAfter(None, ToDeliver(h)).value < id
  }

  // ----- one frame -----

  /** The entries of a frame with the first k records of the job. */
  ghost predicate Wrote(more: seq<Entry>, job: Job, k: nat) {
    && k <= |job.records| && more != [] && more[0] == HeadOf(job) && NoHead(more[1..])
    && Records(more[1..]) == job.records[..k]
  }

  lemma {:induction false} WroteHead(job: Job)
    ensures Wrote([HeadOf(job)], job, 0)
  {
  }

  lemma {:induction false} WroteMore(more: seq<Entry>, job: Job, k: nat, begun: seq<Entry>)
    requires Wrote(more, job, k) && JobOk(job) && k < |job.records|
    requires begun == [] || begun == [PageBegin(job.id)]
    ensures Wrote(more + (begun + [job.records[k]]), job, k + 1)
  {
    var e := job.records[k];
    var added := begun + [e];
    assert (more + added)[1..] == more[1..] + added;
    RecordsAppend(more[1..], added);
    RecordsAppend(begun, [e]);
    assert Records([e]) == [e] + Records([e][1..]);
    assert Records(begun) == [];
    assert job.records[..k + 1] == job.records[..k] + [e];
  }

  /** Reading memory failed: the room is given back, with nothing held or lost. */
  lemma RoomReturned(rb: Rb, page: Option<Addr>, id: nat, h: Held, pages: set<Page>, size: nat, frame: nat)
    requires Ready(rb, page, id, h, pages)
    ensures Links(rb)
    ensures Ready(PageRing.Alloc(rb, false, size, frame).0.(w := rb.w), page, id, h, pages)
  {
    ReadyRing(rb, page, id, h, pages);
    AbandonKeeps(false, System(rb, page), h, size, frame, pages);
    hide Good;
    assert Effect(false, h, Abandon(size, frame)) == h;
  }

  lemma NewFrame(job: Job, h: Held)
    requires JobOk(job) && Newer(h, job.id)
    ensures Continues(FrameAfter(None, ToDeliver(h)), HeadOf(job), 0)
    ensures HeadOf(job).Head? && HeadOf(job).id == job.id < ULLONG_MAX
  {
  }

  lemma SameFrameOn(job: Job, k: nat)
    requires JobOk(job) && k < |job.records|
    ensures Continues(Some(job.id), job.records[k], job.id) && !job.records[k].Head?
  {
  }

  lemma OneMore(before: seq<Entry>, more: seq<Entry>, added: seq<Entry>)
    ensures before + more + added == before + (more + added)
  {
  }

  /** gtp_handler: the head, then the records of each action, up to the first that finds no room.  The
      pipe may hold a page meanwhile; the frame is added to the end of what it has to deliver. */
  method Perform(rb0: Rb, job: Job, ghost page: Option<Addr>, ghost id: nat, ghost h0: Held, ghost pages: set<Page>)
    returns (rb: Rb, ghost h: Held, ghost more: seq<Entry>, ghost k: nat)
    requires Ready(rb0, page, id, h0, pages) && JobOk(job) && Newer(h0, job.id)
    ensures Ready(rb, page, id, h, pages) && h.out == h0.out
    ensures h0.v.region != [] && |RingOf(h0.v)| >= 2 && h.v.region != [] && |RingOf(h.v)| >= 2
    ensures ToDeliver(h) == ToDeliver(h0) + more
    ensures if HasRoom(h0.v, HeadOf(job), 0) then
              && Wrote(more, job, k) && FrameAfter(None, ToDeliver(h)) == Some(job.id)
              && (k < |job.records| ==> !HasRoom(h.v, job.records[k], job.id))
            else more == [] && h == h0
  {
    hide Ready, ToDeliver, Wrote, HasRoom, FrameAfter, Opened, WrittenView, Written, RingOf, PageRing.Alloc, Continues;
    hide JobOk;
    hide Newer, HeadOf;
    rb, h, more, k := rb0, h0, [], 0;
    ReadyRing(rb, page, id, h, pages);
    NothingAdded(ToDeliver(h));
    NewFrame(job, h);
    ghost var begun := WriterAdds(rb, page, id, h, pages, HeadOf(job), 0, FrameAfter(None, ToDeliver(h)));
    RoomFound(rb, page, id, h, pages, HeadOf(job), 0);
    var room := PageRing.Alloc(rb, false, Size(HeadOf(job)), 0).1.Some?;
    rb := Written(rb, false, HeadOf(job), 0);
    h := h.(v := WrittenView(h.v, false, HeadOf(job), 0));
    ReadyRing(rb, page, id, h, pages);
    if !room {
      return;
    }
    more := [HeadOf(job)];
    HeadAlone(job, begun);
    WroteHead(job);
    for i := 0 to |job.records|
      invariant Ready(rb, page, id, h, pages) && h.out == h0.out && h.v.region != [] && |RingOf(h.v)| >= 2
      invariant ToDeliver(h) == ToDeliver(h0) + more
      invariant k == i && Wrote(more, job, k) && FrameAfter(None, ToDeliver(h)) == Some(job.id)
    {
      var e := job.records[i];
      SameFrameOn(job, i);
      begun := WriterAdds(rb, page, id, h, pages, e, job.id, Some(job.id));
      RoomFound(rb, page, id, h, pages, e, job.id);
      room := PageRing.Alloc(rb, false, Size(e), job.id).1.Some?;
      rb := Written(rb, false, e, job.id);
      h := h.(v := WrittenView(h.v, false, e, job.id));
      ReadyRing(rb, page, id, h, pages);
      if !room {
        return;
      }
      WroteMore(more, job, i, begun);
      OneMore(ToDeliver(h0), more, begun + [e]);
      more, k := more + (begun + [e]), i + 1;
    }
    if job.torn.Some? {
      RoomReturned(rb, page, id, h, pages, job.torn.value, job.id);
      rb := PageRing.Alloc(rb, false, job.torn.value, job.id).0.(w := rb.w);
    }
  }

  lemma NothingAdded(flat: seq<Entry>)
    ensures flat + [] == flat
  {
  }

  /** A head is not begun with a record of its page. */
  lemma HeadAlone(job: Job, begun: seq<Entry>)
    requires begun == []
    ensures begun + [HeadOf(job)] == [HeadOf(job)]
  {
  }

  lemma RoomFound(rb: Rb, page: Option<Addr>, id: nat, h: Held, pages: set<Page>, e: Entry, frame: nat)
    requires Ready(rb, page, id, h, pages)
    ensures Links(rb) && h.v.region != [] && |RingOf(h.v)| >= 2
    ensures PageRing.Alloc(rb, false, Size(e), frame).1.Some? <==> HasRoom(h.v, e, frame)
  {
    ReadyRing(rb, page, id, h, pages);
    AllocOpens(rb, h.v, false, Size(e), frame);
    AlignedSize(e);
  }

  // ----- one frame after the other -----

  /** The frame is the job's, with its first records: all of them unless the ring was full. */
  predicate OfJob(f: Frame, job: Job) {
    f.id == job.id && f.num == job.num && f.records <= job.records
  }

  /** The frames are those of the jobs, in their order, but for jobs that found the ring full. */
  ghost predicate FromJobs(frames: seq<Frame>, jobs: seq<Job>)
    decreases |jobs|
  {
    if jobs == [] then frames == []
    else
      var last := |jobs| - 1;
      || FromJobs(frames, jobs[..last])
      || (frames != [] && OfJob(frames[|frames| - 1], jobs[last]) && FromJobs(frames[..|frames| - 1], jobs[..last]))
  }

  lemma {:induction false} FromOneMore(frames: seq<Frame>, jobs: seq<Job>, job: Job, f: Frame)
    requires FromJobs(frames, jobs)
    ensures FromJobs(frames, jobs + [job])
    ensures OfJob(f, job) ==> FromJobs(frames + [f], jobs + [job])
  {
    assert (jobs + [job])[..|jobs|] == jobs && (frames + [f])[..|frames|] == frames;
  }

  lemma {:induction false} FromMoreJobs(frames: seq<Frame>, jobs: seq<Job>, more: seq<Frame>, later: seq<Job>)
    requires FromJobs(frames, jobs) && FromJobs(more, later)
    ensures FromJobs(frames + more, jobs + later)
    decreases |later|
  {
    if later == [] {
      assert frames + more == frames && jobs + later == jobs;
    } else {
      var last := |later| - 1;
      assert jobs + later == (jobs + later[..last]) + [later[last]];
      if FromJobs(more, later[..last]) {
        FromMoreJobs(frames, jobs, more, later[..last]);
        FromOneMore(frames + more, jobs + later[..last], later[last], Frame(0, 0, []));
      } else {
        var before, f := more[..|more| - 1], more[|more| - 1];
        FromMoreJobs(frames, jobs, before, later[..last]);
        FromOneMore(frames + before, jobs + later[..last], later[last], f);
        assert frames + more == frames + before + [f];
      }
    }
  }

  function JobIds(jobs: seq<Job>): (ids: seq<nat>)
    ensures |ids| == |jobs| && forall i :: 0 <= i < |ids| ==> ids[i] == jobs[i].id
  {
    seq(|jobs|, i requires 0 <= i < |jobs| => jobs[i].id)
  }

  /** What the writer has still to do comes after all there is to deliver, with increasing ids. */
  ghost predicate Follows(h: Held, jobs: seq<Job>) {
    && (forall i :: 0 <= i < |jobs| ==> JobOk(jobs[i]) && Newer(h, jobs[i].id))
    && Increasing(JobIds(jobs))
  }

  lemma {:induction false} IncreasingRest(id: nat, ids: seq<nat>)
    requires Increasing([id] + ids)
    ensures Increasing(ids) && forall x :: x in ids ==> id < x
  {
    var all := [id] + ids;
    forall i, j | 0 <= i < j < |ids| ensures ids[i] < ids[j] {
      assert all[i + 1] < all[j + 1];
    }
    forall x | x in ids ensures id < x {
      var i :| 0 <= i < |ids| && ids[i] == x;
      assert all[0] < all[i + 1];
    }
  }

  lemma {:induction false} FollowsFirst(h: Held, jobs: seq<Job>, job: Job)
    requires Follows(h, [job] + jobs)
    ensures JobOk(job) && Newer(h, job.id) && Follows(h, jobs)
    ensures forall x :: x in JobIds(jobs) ==> job.id < x
  {
    hide JobOk, Newer, Increasing;
    var all := [job] + jobs;
    assert all[0] == job;
    forall i | 0 <= i < |jobs| ensures JobOk(jobs[i]) && Newer(h, jobs[i].id) {
      assert all[i + 1] == jobs[i];
    }
    assert JobIds(all) == [job.id] + JobIds(jobs);
    IncreasingRest(job.id, JobIds(jobs));
  }

  lemma {:induction false} FollowsAfter(h: Held, h': Held, job: Job, jobs: seq<Job>)
    requires Follows(h, jobs) && (h' == h || FrameAfter(None, ToDeliver(h')) == Some(job.id))
    requires forall x :: x in JobIds(jobs) ==> job.id < x
    ensures Follows(h', jobs)
  {
    hide JobOk, ToDeliver, FrameAfter;
    forall i | 0 <= i < |jobs| ensures Newer(h', jobs[i].id) {
      assert JobIds(jobs)[i] in JobIds(jobs);
    }
  }

  lemma {:induction false} WroteFrames(more: seq<Entry>, job: Job, k: nat)
    requires Wrote(more, job, k)
    ensures Starts(more) && OfJob(Frame(job.id, job.num, job.records[..k]), job)
    ensures Frames(more) == [Frame(job.id, job.num, job.records[..k])] && Heads(more) == [job.id]
  {
    FrameFirst(more[0], more[1..], []);
    assert more == [more[0]] + more[1..] + [];
  }

  /** Frames written in one go. */
  method PerformAll(rb0: Rb, jobs: seq<Job>, ghost later: seq<Job>, ghost page: Option<Addr>, ghost id: nat, ghost h0: Held,
                    ghost pages: set<Page>) returns (rb: Rb, ghost h: Held, ghost more: seq<Entry>)
    requires Ready(rb0, page, id, h0, pages) && Follows(h0, jobs + later)
    ensures Ready(rb, page, id, h, pages) && h.out == h0.out && Follows(h, later)
    ensures ToDeliver(h) == ToDeliver(h0) + more && Starts(more) && FromJobs(Frames(more), jobs)
    ensures forall x :: x in Heads(more) ==> x in JobIds(jobs)
  {
    hide Ready, ToDeliver, Wrote, HasRoom, FrameAfter, Follows, FromJobs, Frames, Heads, Newer, OfJob, JobOk, RingOf;
    rb, h, more := rb0, h0, [];
    NothingAdded(ToDeliver(h));
    NoFrames();
    for i := 0 to |jobs|
      invariant Ready(rb, page, id, h, pages) && h.out == h0.out && Follows(h, jobs[i..] + later)
      invariant ToDeliver(h) == ToDeliver(h0) + more && Starts(more) && FromJobs(Frames(more), jobs[..i])
      invariant forall x :: x in Heads(more) ==> x in JobIds(jobs[..i])
    {
      ghost var m, k, before;
      before := h;
      assert jobs[i..] + later == [jobs[i]] + (jobs[i + 1..] + later);
      FollowsFirst(h, jobs[i + 1..] + later, jobs[i]);
      rb, h, m, k := Perform(rb, jobs[i], page, id, h, pages);
      FollowsAfter(before, h, jobs[i], jobs[i + 1..] + later);
      JobDone(more, m, jobs, i, k);
      OneMore(ToDeliver(h0), more, m);
      more := more + m;
    }
    assert jobs[..|jobs|] == jobs && jobs[|jobs|..] + later == later;
  }

  lemma NoFrames()
    ensures FromJobs(Frames([]), []) && Heads([]) == []
  {
  }

  lemma {:induction false} JobDone(more: seq<Entry>, m: seq<Entry>, jobs: seq<Job>, i: nat, k: nat)
    requires i < |jobs| && Starts(more) && FromJobs(Frames(more), jobs[..i]) && (m == [] || Wrote(m, jobs[i], k))
    requires forall x :: x in Heads(more) ==> x in JobIds(jobs[..i])
    ensures Starts(more + m) && FromJobs(Frames(more + m), jobs[..i + 1])
    ensures forall x :: x in Heads(more + m) ==> x in JobIds(jobs[..i + 1])
  {
    hide Wrote, Frames, Heads, FromJobs, OfJob;
    assert jobs[..i + 1] == jobs[..i] + [jobs[i]];
    assert forall j :: 0 <= j < i ==> JobIds(jobs[..i + 1])[j] == JobIds(jobs[..i])[j];
    assert JobIds(jobs[..i + 1])[i] == jobs[i].id;
    var f := Frame(0, 0, []);
    if m == [] {
      assert more + m == more;
    } else {
      WroteFrames(m, jobs[i], k);
      f := Frames(m)[0];
      FramesAppend(more, m);
      HeadsSuffix(more, m);
    }
    FromOneMore(Frames(more), jobs[..i], jobs[i], f);
  }

  // ----- turns at the lock -----

  /** All the writer has still to do: batch after batch, each before one of the pipe's next turns at
      the lock. */
  function Pending(traffic: seq<seq<Job>>): seq<Job> {
    if traffic == [] then [] else traffic[0] + Pending(traffic[1..])
  }

  /** The pipe takes the lock of the ring: what the writer does before that. */
  method Arrive(rb0: Rb, traffic0: seq<seq<Job>>, ghost page: Option<Addr>, ghost id: nat, ghost h0: Held,
                ghost pages: set<Page>)
    returns (rb: Rb, traffic: seq<seq<Job>>, ghost h: Held, ghost more: seq<Entry>, ghost jobs: seq<Job>)
    requires Ready(rb0, page, id, h0, pages) && Follows(h0, Pending(traffic0))
    ensures Ready(rb, page, id, h, pages) && h.out == h0.out && Follows(h, Pending(traffic))
    ensures ToDeliver(h) == ToDeliver(h0) + more && Starts(more) && FromJobs(Frames(more), jobs)
    ensures forall x :: x in Heads(more) ==> x in JobIds(jobs)
    ensures Pending(traffic0) == jobs + Pending(traffic)
    ensures if traffic0 == [] then traffic == [] && h == h0 && more == [] else |traffic| < |traffic0|
  {
    hide Ready, ToDeliver, Follows, FromJobs, Frames, Heads;
    rb, traffic, h, more, jobs := rb0, traffic0, h0, [], [];
    NothingAdded(ToDeliver(h));
    NoFrames();
    if traffic != [] {
      jobs, traffic := traffic0[0], traffic0[1..];
      rb, h, more := PerformAll(rb, traffic0[0], Pending(traffic), page, id, h, pages);
    }
  }
}
