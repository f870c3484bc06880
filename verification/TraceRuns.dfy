/**
 Tracing on several CPUs at once.  Every CPU writes its own page ring; the ids of the frames come
 from one counter.  Whatever the CPUs do, in whatever order, what they leave can be read back: the
 ids on each ring increase, and no id is on two rings.
 */
module TraceRuns {
  import opened Options
  import opened PageRing
  import opened PageRuns
  import opened PageWalk
  import opened FrameRead
  import opened FrameOrder
  import opened Delivery
  import opened FrameJobs
  import opened FrameMeaning
  import opened FramePipe

  /** A CPU: its ring, what the ring holds, the id of the frame it began last, and its pages. */
  datatype Cpu = Cpu(rb: Rb, v: View, last: nat, pages: set<Page>)

  datatype Tracing = Tracing(cpus: seq<Cpu>, clock: nat)

  /** A frame begins, a record of the frame is written, or room taken for one is given back. */
  datatype Act = NewFrame(num: nat, prev: Option<Addr>) | Rec(e: Entry) | Release(size: nat)

  /** One CPU's next act, with gtp_circular as it is then; or gtp_rb_reset, which clears all rings
      and the counter. */
  datatype Turn = Turn(cpu: nat, circular: bool, act: Act) | Reset

  ghost predicate CpuOk(c: Cpu, clock: nat) {
    Good(System(c.rb, None), Held(c.v, None), c.pages) && InOrder(c.v, c.last, clock)
  }

  function Views(cpus: seq<Cpu>): (views: seq<View>)
    ensures |views| == |cpus| && forall c :: 0 <= c < |views| ==> views[c] == cpus[c].v
  {
    seq(|cpus|, c requires 0 <= c < |cpus| => cpus[c].v)
  }

  ghost predicate Sound(s: Tracing) {
    && (forall c :: 0 <= c < |s.cpus| ==> CpuOk(s.cpus[c], s.clock))
    && Mergeable(HeadLists(Views(s.cpus)))
  }

  /** Records are written inside a frame. */
  predicate Allowed(c: Cpu, act: Act) {
    && Links(c.rb) && c.v.region != [] && |RingOf(c.v)| >= 2
    && (act.Rec? ==> c.last > 0 && Record(act.e) && !act.e.Head?)
  }

  /** What the act is for the ring. */
  function OpOf(c: Cpu, clock: nat, act: Act): (op: Op)
    ensures (act.Rec? ==> Record(act.e)) ==> Enabled(Held(c.v, None), op)
  {
    match act
    case NewFrame(num, prev) => Write(Head(clock + 1, num, prev), 0)
    case Rec(e) => Write(e, c.last)
    case Release(size) => Abandon(size, c.last)
  }

  /** Whether the act takes an id: gtp_action_head does so once it has room. */
  predicate Ticks(c: Cpu, circular: bool, act: Act)
    requires c.v.region != [] && |RingOf(c.v)| >= 2
  {
    act.NewFrame? && Opened(c.v, circular, 28, 0).Some?
  }

  function CpuAfter(c: Cpu, clock: nat, circular: bool, act: Act): Cpu
    requires Allowed(c, act)
  {
    var op := OpOf(c, clock, act);
    Cpu(PageRuns.Do(circular, System(c.rb, None), op).rb, Effect(circular, Held(c.v, None), op).v,
        if Ticks(c, circular, act) then clock + 1 else c.last, c.pages)
  }

  function Cleared(c: Cpu): Cpu
    requires c.v.region != []
  {
    Cpu(PageRing.Reset(c.rb), Emptied(c.v), 0, c.pages)
  }

  predicate TurnAllowed(s: Tracing, t: Turn) {
    match t
    case Turn(cpu, _, act) => cpu < |s.cpus| && Allowed(s.cpus[cpu], act)
    case Reset => forall c :: 0 <= c < |s.cpus| ==> s.cpus[c].v.region != []
  }

  function After(s: Tracing, t: Turn): Tracing
    requires TurnAllowed(s, t)
  {
    match t
    case Turn(cpu, circular, act) =>
      var c := s.cpus[cpu];
      Tracing(s.cpus[cpu := CpuAfter(c, s.clock, circular, act)],
              if Ticks(c, circular, act) then s.clock + 1 else s.clock)
    case Reset =>
      Tracing(seq(|s.cpus|, c requires 0 <= c < |s.cpus| => Cleared(s.cpus[c])), 0)
  }

  // ----- one turn -----

  lemma {:induction false} GoodRing(c: Cpu, clock: nat)
    requires CpuOk(c, clock)
    ensures Links(c.rb) && c.v.region != [] && |RingOf(c.v)| >= 2
  {
    LinksOf(c.rb, c.v);
  }

  /** The ring part of an act. */
  lemma {:induction false} RingKept(c: Cpu, clock: nat, circular: bool, act: Act)
    requires CpuOk(c, clock) && Allowed(c, act)
    ensures var c' := CpuAfter(c, clock, circular, act);
            Good(System(c'.rb, None), Held(c'.v, None), c'.pages)
  {
    hide Good, InOrder, Opened;
    DoKeepsGood(circular, System(c.rb, None), Held(c.v, None), OpOf(c, clock, act), c.pages);
  }

  /** The order part. */
  lemma {:induction false} OrderKept(c: Cpu, clock: nat, circular: bool, act: Act)
    requires CpuOk(c, clock) && Allowed(c, act)
    ensures var c' := CpuAfter(c, clock, circular, act);
            && InOrder(c'.v, c'.last, if Ticks(c, circular, act) then clock + 1 else clock)
            && HeadsFrom(c.v, c'.v, Some(clock + 1))
  {
    hide Good, InOrder, Opened, WrittenView, RingOf, GivenBack, Heads, Content;
    match act
    case NewFrame(num, prev) => HeadInOrder(c.v, circular, c.last, clock, num, prev);
    case Rec(e) => RecordInOrder(c.v, circular, c.last, clock, e);
    case Release(size) => GivenBackInOrder(c.v, circular, Align(size), c.last, clock);
  }

  lemma {:induction false} IdsBelow(s: Tracing, d: nat, id: nat)
    requires Sound(s) && d < |s.cpus| && id in Heads(Content(s.cpus[d].v))
    ensures id <= s.clock
  {
    hide Good, Mergeable;
    assert CpuOk(s.cpus[d], s.clock);
  }

  lemma {:induction false} TurnKeepsSound(s: Tracing, t: Turn)
    requires Sound(s) && TurnAllowed(s, t)
    ensures Sound(After(s, t))
  {
    hide Good, InOrder, Mergeable, CpuAfter, Ticks, Heads, Content, Opened, Allowed, HeadsFrom;
    match t
    case Turn(cpu, circular, act) =>
      var c, s' := s.cpus[cpu], After(s, t);
      var c' := CpuAfter(c, s.clock, circular, act);
      RingKept(c, s.clock, circular, act);
      OrderKept(c, s.clock, circular, act);
      forall d | 0 <= d < |s'.cpus| ensures CpuOk(s'.cpus[d], s'.clock) {
        if d != cpu {
          LaterClock(s.cpus[d].v, s.cpus[d].last, s.clock, s'.clock);
        }
      }
      forall d, id | 0 <= d < |s.cpus| && id in Heads(Content(Views(s.cpus)[d])) ensures id <= s.clock {
        IdsBelow(s, d, id);
      }
      LaterClock(c'.v, c'.last, s'.clock, s.clock + 1);
      ViewsMergeable(Views(s.cpus), cpu, c'.v, c'.last, s.clock);
      assert Views(s'.cpus) == Views(s.cpus)[cpu := c'.v];
    case Reset => ResetKeepsSound(s);
  }

  lemma {:induction false} ClearedOk(c: Cpu, clock: nat)
    requires CpuOk(c, clock)
    ensures c.v.region != [] && CpuOk(Cleared(c), 0) && Heads(Content(Cleared(c).v)) == []
  {
    GoodRing(c, clock);
    DoKeepsGood(false, System(c.rb, None), Held(c.v, None), Clear, c.pages);
    hide Good, InOrder, Content, Emptied;
    EmptiedInOrder(c.v, 0);
  }

  lemma {:induction false} ResetKeepsSound(s: Tracing)
    requires Sound(s) && TurnAllowed(s, Reset)
    ensures Sound(After(s, Reset))
  {
    hide CpuOk, Heads, Content, Cleared;
    var s' := After(s, Reset);
    forall c | 0 <= c < |s'.cpus|
      ensures CpuOk(s'.cpus[c], 0) && HeadLists(Views(s'.cpus))[c] == []
    {
      ClearedOk(s.cpus[c], s.clock);
    }
    assert forall c :: 0 <= c < |s'.cpus| ==> HeadLists(Views(s'.cpus))[c] == [];
  }

  // ----- every run -----

  ghost predicate Leads(s: Tracing, turns: seq<Turn>, s': Tracing)
    decreases |turns|
  {
    if turns == [] then s' == s else TurnAllowed(s, turns[0]) && Leads(After(s, turns[0]), turns[1..], s')
  }

  /** Nothing but the records' frames limits the turns. */
  lemma {:induction false} SoundAllows(s: Tracing, t: Turn)
    requires Sound(s)
    requires t.Turn? ==>
      t.cpu < |s.cpus| && (t.act.Rec? ==> s.cpus[t.cpu].last > 0 && Record(t.act.e) && !t.act.e.Head?)
    ensures TurnAllowed(s, t)
  {
    hide CpuOk, Mergeable;
    forall c | 0 <= c < |s.cpus| ensures Links(s.cpus[c].rb) && s.cpus[c].v.region != [] && |RingOf(s.cpus[c].v)| >= 2 {
      GoodRing(s.cpus[c], s.clock);
    }
  }

  /** Any run, circular or not at each turn, with rooms released and rings reset: the rings stay
      sound, ids increase on each of them, and none is on two. */
  lemma {:induction false} RunsKeepSound(s: Tracing, turns: seq<Turn>, s': Tracing)
    requires Sound(s) && Leads(s, turns, s')
    ensures Sound(s') && |s'.cpus| == |s.cpus|
    decreases |turns|
  {
    hide Sound;
    if turns != [] {
      TurnKeepsSound(s, turns[0]);
      SameCpus(s, turns[0]);
      RunsKeepSound(After(s, turns[0]), turns[1..], s');
    }
  }

  lemma SameCpus(s: Tracing, t: Turn)
    requires TurnAllowed(s, t)
    ensures |After(s, t).cpus| == |s.cpus|
  {
    hide CpuAfter, Ticks, Allowed;
  }

  /** A CPU's ring as gtp_rb_page_alloc makes it. */
  ghost predicate FreshCpu(c: Cpu, ring: seq<Page>) {
    && |ring| >= 3 && c.v == View([PageLog(ring[0], DATA, [])], ring[1..]) && Rep(c.rb, c.v)
    && c.last == 0 && c.pages == PageSet(ring)
  }

  /** Rings just built are a sound start, for any number of CPUs. */
  lemma {:induction false} FreshIsSound(s: Tracing, rings: seq<seq<Page>>)
    requires |rings| == |s.cpus| && s.clock == 0
    requires forall c :: 0 <= c < |s.cpus| ==> FreshCpu(s.cpus[c], rings[c])
    ensures Sound(s)
  {
    hide Good, InOrder, Heads, Content, Rep;
    forall c | 0 <= c < |s.cpus|
      ensures CpuOk(s.cpus[c], 0) && HeadLists(Views(s.cpus))[c] == []
    {
      assert FreshCpu(s.cpus[c], rings[c]);
      FreshIsGood(s.cpus[c].rb, rings[c]);
      EmptyContent(rings[c][0], rings[c][1..]);
    }
  }

  // ----- reading after any run -----

  /** What the readers rely on holds after any run, until the counter reaches its last value. */
  lemma {:induction false} SoundReads(s: Tracing, c: nat)
    requires Sound(s) && s.clock < ULLONG_MAX && c < |s.cpus|
    ensures Readable(s.cpus[c].rb, s.cpus[c].v)
    ensures Ready(s.cpus[c].rb, None, 0, Held(s.cpus[c].v, None), s.cpus[c].pages)
    ensures ToDeliver(Held(s.cpus[c].v, None)) == Content(s.cpus[c].v)
  {
    hide Mergeable, Rep, Ordered, Heads, Content, Conserved;
    assert CpuOk(s.cpus[c], s.clock);
    assert [] + Content(s.cpus[c].v) == Content(s.cpus[c].v);
  }

  /** After any run gtp_rb_read gives every frame of every CPU once, in the order of their ids. */
  method ReadRun(rbs: seq<Rb>, ghost s: Tracing) returns (ids: seq<nat>)
    requires Sound(s) && s.clock < ULLONG_MAX && |rbs| == |s.cpus|
    requires forall c :: 0 <= c < |rbs| ==> rbs[c] == s.cpus[c].rb
    ensures Increasing(ids)
    ensures forall id :: id in ids <==> InSome(HeadLists(Views(s.cpus)), id)
  {
    hide Readable, Mergeable, Increasing, InSome, HeadLists, CpuOk, Ready, Content, ToDeliver;
    forall c | 0 <= c < |rbs| ensures Readable(rbs[c], s.cpus[c].v) {
      SoundReads(s, c);
    }
    var reader := new Reader(rbs, Views(s.cpus));
    ids := reader.ReadAll();
  }

  /** What the writers are still to do, with ids the counter has not given yet: increasing on each CPU,
      and no two the same. */
  ghost predicate Clocked(traffic: seq<seq<seq<Job>>>, clock: nat) {
    && (forall c, i :: 0 <= c < |traffic| && 0 <= i < |Pending(traffic[c])| ==>
          JobOk(Pending(traffic[c])[i]) && clock < Pending(traffic[c])[i].id)
    && Mergeable(PendingIds(traffic))
  }

  function PendingIds(traffic: seq<seq<seq<Job>>>): (lists: seq<seq<nat>>)
    ensures |lists| == |traffic| && forall c :: 0 <= c < |lists| ==> lists[c] == JobIds(Pending(traffic[c]))
  {
    seq(|traffic|, c requires 0 <= c < |traffic| => JobIds(Pending(traffic[c])))
  }

  lemma {:induction false} ClockedFollows(s: Tracing, traffic: seq<seq<seq<Job>>>, c: nat)
    requires Sound(s) && Clocked(traffic, s.clock) && c < |s.cpus| == |traffic|
    ensures Follows(Held(s.cpus[c].v, None), Pending(traffic[c]))
  {
    hide Good, Ordered, Heads, Content, Pending, JobOk, Increasing;
    var h := Held(s.cpus[c].v, None);
    assert CpuOk(s.cpus[c], s.clock);
    assert ToDeliver(h) == Content(h.v) by {
      assert [] + Content(h.v) == Content(h.v);
    }
    assert PendingIds(traffic)[c] == JobIds(Pending(traffic[c]));
    forall i | 0 <= i < |Pending(traffic[c])| ensures Newer(h, Pending(traffic[c])[i].id) {
      assert s.clock < Pending(traffic[c])[i].id;
    }
  }

  /** The ids held and those still to be given increase on each CPU, and none is on two. */
  lemma {:induction false} ClockedMerges(s: Tracing, held: seq<Held>, traffic: seq<seq<seq<Job>>>)
    requires Sound(s) && Clocked(traffic, s.clock) && |held| == |s.cpus| == |traffic|
    requires forall c :: 0 <= c < |held| ==> ToDeliver(held[c]) == Content(s.cpus[c].v)
    ensures Mergeable(IdLists(held, traffic))
  {
    hide Good, InOrder, Content, ToDeliver, Heads, Pending, JobOk, CpuOk;
    var heads, jobs, lists := HeadLists(Views(s.cpus)), PendingIds(traffic), IdLists(held, traffic);
    forall c | 0 <= c < |lists| ensures lists[c] == heads[c] + jobs[c] && Increasing(lists[c]) {
      forall x, i | x in heads[c] && 0 <= i < |jobs[c]| ensures x < jobs[c][i] {
        IdsBelow(s, c, x);
        assert jobs[c][i] == Pending(traffic[c])[i].id;
      }
      IncreasingBoth(heads[c], jobs[c]);
    }
    forall a, b, x | 0 <= a < |lists| && 0 <= b < |lists| && x in lists[a] && x in lists[b] ensures a == b {
      OneSide(s, traffic, heads, jobs, a, x);
      OneSide(s, traffic, heads, jobs, b, x);
    }
  }

  lemma IncreasingBoth(a: seq<nat>, b: seq<nat>)
    requires Increasing(a) && Increasing(b) && forall x, i :: x in a && 0 <= i < |b| ==> x < b[i]
    ensures Increasing(a + b)
  {
    forall i, j | 0 <= i < j < |a + b| ensures (a + b)[i] < (a + b)[j] {
      if i < |a| <= j {
        assert a[i] in a;
      }
    }
  }

  lemma {:induction false} OneSide(s: Tracing, traffic: seq<seq<seq<Job>>>, heads: seq<seq<nat>>, jobs: seq<seq<nat>>,
                                   c: nat, x: nat)
    requires Sound(s) && Clocked(traffic, s.clock) && c < |s.cpus| == |traffic|
    requires heads == HeadLists(Views(s.cpus)) && jobs == PendingIds(traffic) && x in heads[c] + jobs[c]
    ensures if x <= s.clock then x in heads[c] else x in jobs[c]
  {
    hide Good, InOrder, Content, Heads, Pending, JobOk, CpuOk, Mergeable;
    if x in heads[c] {
      IdsBelow(s, c, x);
    } else {
      var i :| 0 <= i < |jobs[c]| && jobs[c][i] == x;
      assert x == Pending(traffic[c])[i].id;
    }
  }

  /** After any run, and while the writers go on, the pipe delivers every frame of every CPU once, with
      all its records and those of a CPU in the order written: first those that were there, then those
      written meanwhile.  If the writers have stopped, all come in the order of their ids. */
  method DrainRun(rbs: array<Rb>, traffic: array<seq<seq<Job>>>, ghost s: Tracing) returns (delivered: seq<(nat, Frame)>)
    requires Sound(s) && s.clock < ULLONG_MAX && rbs.Length == |s.cpus| == traffic.Length
    requires forall c :: 0 <= c < rbs.Length ==> rbs[c] == s.cpus[c].rb
    requires Clocked(traffic[..], s.clock)
    modifies rbs, traffic
    ensures forall c :: 0 <= c < |s.cpus| ==>
      var there := Frames(Content(s.cpus[c].v));
      && traffic[c] == [] && there <= From(delivered, c)
      && FramesAre(Content(s.cpus[c].v), there) && FromJobs(From(delivered, c)[|there|..], old(Pending(traffic[c])))
    ensures (forall c :: 0 <= c < |s.cpus| ==> old(traffic[c]) == []) ==>
      && Increasing(Ids(delivered))
      && (forall id :: id in Ids(delivered) <==> InSome(HeadLists(Views(s.cpus)), id))
      && (forall c :: 0 <= c < |s.cpus| ==> From(delivered, c) == Frames(Content(s.cpus[c].v)))
  {
    hide Ready, Mergeable, Increasing, InSome, CpuOk, Content, ToDeliver, Frames, From, Readable, Heads, Follows;
    hide FromJobs, Pending;
    hide FramesAre, Clocked, Tallied, Sound, HeadLists, Merged, Books, IdLists, FramesOn, LeftOn, Ids, Views, Pipe.Valid, Pipe.Now;
    ghost var held := seq(|s.cpus|, c requires 0 <= c < |s.cpus| => Held(s.cpus[c].v, None));
    ghost var pages := seq(|s.cpus|, c requires 0 <= c < |s.cpus| => s.cpus[c].pages);
    forall c | 0 <= c < |s.cpus|
      ensures Ready(rbs[c], None, 0, held[c], pages[c]) && ToDeliver(held[c]) == Content(s.cpus[c].v)
      ensures Follows(held[c], Pending(traffic[c]))
    {
      SoundReads(s, c);
      ClockedFollows(s, traffic[..], c);
    }
    ClockedMerges(s, held, traffic[..]);
    LeftIsHeads(s, held);
    forall c | 0 <= c < |s.cpus| ensures FramesAre(Content(s.cpus[c].v), Frames(Content(s.cpus[c].v))) {
      FramesMean(Content(s.cpus[c].v));
    }
    var pipe := new Pipe(rbs, traffic, held, pages);
    delivered := pipe.Drain();
    assert forall c :: 0 <= c < |s.cpus| ==> [] + From(delivered, c) == From(delivered, c);
  }

  lemma LeftIsHeads(s: Tracing, held: seq<Held>)
    requires |held| == |s.cpus| && forall c :: 0 <= c < |held| ==> ToDeliver(held[c]) == Content(s.cpus[c].v)
    ensures LeftOn(held) == HeadLists(Views(s.cpus))
    ensures forall c :: 0 <= c < |held| ==> FramesOn(held)[c] == Frames(Content(s.cpus[c].v))
  {
    hide ToDeliver, Content, Heads, Frames;
  }
}
