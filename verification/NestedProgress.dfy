/**
 What a writer of the reserve and commit protocol gets done when nothing interrupts it: it has its event,
 on the next page if the tail page is too short, or is told that there is none; a discard takes its event
 back; and the outermost commit makes everything readable.
 */
module NestedProgress {
  import opened NestedCommit

  // ----- steps of one frame -----

  /** Steps of the top frame, one for each verdict, up to its return. */
  function Solo(m: Memory, f: Frame, vs: seq<Verdict>): (o: Outcome)
    requires MemoryShape(m) && FrameShape(f, |m.pages|)
    ensures MemoryShape(o.m) && |o.m.pages| == |m.pages| && (o.On? ==> FrameShape(o.f, |m.pages|))
    decreases |vs|
  {
    if vs == [] then On(m, f)
    else
      FrameStepShape(m, f, vs[0]);
      match FrameStep(m, f, vs[0])
      case On(m', f') => Solo(m', f', vs[1..])
      case Done(m') => Done(m')
  }

  lemma SoloStep(m: Memory, f: Frame, v: Verdict, vs: seq<Verdict>)
    requires MemoryShape(m) && FrameShape(f, |m.pages|)
    ensures var o := FrameStep(m, f, v);
            && MemoryShape(o.m) && |o.m.pages| == |m.pages| && (o.On? ==> FrameShape(o.f, |m.pages|))
            && Solo(m, f, [v] + vs) == if o.On? then Solo(o.m, o.f, vs) else o
  {
    FrameStepShape(m, f, v);
    assert ([v] + vs)[1..] == vs;
  }

  /** Steps, and then more of them. */
  lemma {:induction false} SoloJoin(m: Memory, f: Frame, a: seq<Verdict>, b: seq<Verdict>)
    requires MemoryShape(m) && FrameShape(f, |m.pages|)
    ensures var o := Solo(m, f, a);
            Solo(m, f, a + b) == if o.On? then Solo(o.m, o.f, b) else o
    decreases |a|
  {
    hide Solo, FrameStep;
    SoloNone(m, f);
    if a == [] {
      assert a + b == b;
    } else {
      var rest := a[1..];
      assert a == [a[0]] + rest && a + b == [a[0]] + (rest + b);
      SoloStep(m, f, a[0], rest);
      SoloStep(m, f, a[0], rest + b);
      var o := FrameStep(m, f, a[0]);
      if o.On? {
        SoloJoin(o.m, o.f, rest, b);
      }
    }
  }

  lemma SoloNone(m: Memory, f: Frame)
    requires MemoryShape(m) && FrameShape(f, |m.pages|)
    ensures Solo(m, f, []) == On(m, f)
  {
  }

  /** n steps in which nothing outside the model stands in the way. */
  function Go(n: nat): (vs: seq<Verdict>)
    ensures |vs| == n && forall i :: 0 <= i < n ==> vs[i] == Proceed
  {
    seq(n, i => Proceed)
  }

  lemma GoFirst(n: nat)
    requires n > 0
    ensures Go(n) == [Proceed] + Go(n - 1)
  {
  }

  // ----- reserving -----

  /** The frame has come to its addition on the tail page. */
  predicate AtAdd(m: Memory, f: Frame) {
    f.pc.Add? && f.t == m.tail
  }

  lemma SoloStarts(m: Memory, len: nat)
    requires MemoryShape(m) && MIN_EVENT <= len <= PAGE_SIZE
    ensures Solo(m, NewFrame(len), Go(3))
         == On(m.(committing := m.committing + 1, commits := m.commits + 1), NewFrame(len).(pc := Add, t := m.tail))
  {
    hide Solo;
    var f := NewFrame(len);
    GoFirst(3);
    GoFirst(2);
    GoFirst(1);
    assert Go(0) == [];
    SoloStep(m, f, Proceed, Go(2));
    var m1 := m.(committing := m.committing + 1);
    SoloStep(m1, f.(pc := Count), Proceed, Go(1));
    var m2 := m1.(commits := m.commits + 1);
    SoloStep(m2, f.(pc := ReadTail), Proceed, []);
    SoloNone(m2, f.(pc := Add, t := m.tail));
  }

  /** The page with one more event. */
  function WithEvent(g: Page, len: nat): Page
    requires g.write >= 0
  {
    g.(write := g.write + len, log := g.log + [Event(g.write, len)])
  }

  /** Room on the tail page: the event is there. */
  lemma SoloAdds(m: Memory, f: Frame)
    requires MemoryShape(m) && FrameShape(f, |m.pages|) && AtAdd(m, f)
    requires 0 <= m.pages[m.tail].write && m.pages[m.tail].write + f.len <= 4080
    ensures Solo(m, f, Go(1))
         == On(SetPage(m, m.tail, WithEvent(m.pages[m.tail], f.len)), f.(pc := Hold, off := m.pages[m.tail].write))
  {
    hide Solo;
    GoFirst(1);
    assert Go(0) == [];
    SoloStep(m, f, Proceed, []);
    var m' := SetPage(m, m.tail, WithEvent(m.pages[m.tail], f.len));
    SoloNone(m', f.(pc := Hold, off := m.pages[m.tail].write));
  }

  /** What is left of a page too short for an event of this length: nothing that fits an event. */
  function Filled(write: int): int {
    if write > 4072 then write else 4080
  }

  /** The tail moved on to the next page, which is empty, off a page filled up. */
  function Moved(m: Memory): Memory
    requires MemoryShape(m)
  {
    var nx := Next(|m.pages|, m.tail);
    var g, h := m.pages[m.tail], m.pages[nx];
    m.(tail := nx, pages := m.pages[m.tail := g.(write := Filled(g.write))][nx := Page(h.upd + 1, 0, 0, [])])
  }

  /** The tail page is too short for the event. */
  predicate TooShort(m: Memory, len: nat)
    requires MemoryShape(m)
  {
    m.pages[m.tail].write + len > 4080
  }

  /** Adding past the end. */
  function Overflown(m: Memory, len: nat): Memory
    requires MemoryShape(m)
  {
    SetPage(m, m.tail, m.pages[m.tail].(write := m.pages[m.tail].write + len))
  }

  lemma SoloOverflows(m: Memory, f: Frame, v: Verdict)
    requires MemoryShape(m) && FrameShape(f, |m.pages|) && AtAdd(m, f) && 0 <= m.pages[m.tail].write && TooShort(m, f.len)
    ensures FrameStep(m, f, v) == On(Overflown(m, f.len), f.(pc := Move, off := m.pages[m.tail].write))
  {
  }

  /** The next page claimed as the tail page: cleared and, if nobody came in between, taken. */
  function Claimed(m: Memory, nx: nat): Memory
    requires MemoryShape(m) && nx < |m.pages|
  {
    SetPage(m, nx, Page(m.pages[nx].upd + 1, 0, 0, [])).(tail := nx)
  }

  lemma SetTwice(m: Memory, p: nat, a: Page, b: Page)
    requires p < |m.pages|
    ensures SetPage(SetPage(m, p, a), p, b) == SetPage(m, p, b)
  {
    assert m.pages[p := a][p := b] == m.pages[p := b];
  }

  /** The steps of rb_tail_page_update when nobody came in between. */
  lemma MoveSteps(m: Memory, f: Frame)
    requires MemoryShape(m) && FrameShape(f, |m.pages|) && Moving(f.pc) && f.t == m.tail
    ensures var g := m.pages[f.nx];
            && (f.pc.Bump? ==>
                  FrameStep(m, f, Proceed)
                  == On(SetPage(m, f.nx, g.(upd := g.upd + 1)), f.(pc := Check, upd := g.upd + 1, idx := g.write)))
            && (f.pc.Check? ==> FrameStep(m, f, Proceed) == On(m, f.(pc := Zero)))
            && (f.pc.Zero? && g.upd == f.upd && g.write == f.idx ==>
                  FrameStep(m, f, Proceed) == On(SetPage(m, f.nx, g.(write := 0, log := [])), f.(pc := ZeroCommit)))
            && (f.pc.ZeroCommit? ==>
                  FrameStep(m, f, Proceed) == On(SetPage(m, f.nx, g.(commit := 0)), f.(pc := SetTail)))
            && (f.pc.SetTail? ==>
                  FrameStep(m, f, Proceed) == On(m.(tail := f.nx), f.(pc := Reset, again := true)))
  {
  }

  lemma SoloClaims(m: Memory, f: Frame) returns (f': Frame)
    requires MemoryShape(m) && FrameShape(f, |m.pages|) && f.pc.Bump? && f.t == m.tail != f.nx
    ensures Solo(m, f, Go(5)) == On(Claimed(m, f.nx), f')
    ensures f' == f.(pc := Reset, again := true, upd := f'.upd, idx := f'.idx)
  {
    hide Solo, FrameStep;
    GoDown(5);
    var nx, h := f.nx, m.pages[f.nx];
    var g3, g5, g6 := h.(upd := h.upd + 1), Page(h.upd + 1, 0, h.commit, []), Page(h.upd + 1, 0, 0, []);
    MoveSteps(m, f);
    SoloStep(m, f, Proceed, Go(4));
    var m3, f3 := SetPage(m, nx, g3), f.(pc := Check, upd := h.upd + 1, idx := h.write);
    MoveSteps(m3, f3);
    SoloStep(m3, f3, Proceed, Go(3));
    var f4 := f3.(pc := Zero);
    MoveSteps(m3, f4);
    SetTwice(m, nx, g3, g5);
    SoloStep(m3, f4, Proceed, Go(2));
    var m5, f5 := SetPage(m, nx, g5), f4.(pc := ZeroCommit);
    MoveSteps(m5, f5);
    SetTwice(m, nx, g5, g6);
    SoloStep(m5, f5, Proceed, Go(1));
    var m6, f6 := SetPage(m, nx, g6), f5.(pc := SetTail);
    MoveSteps(m6, f6);
    SoloStep(m6, f6, Proceed, []);
    f' := f6.(pc := Reset, again := true);
    SoloNone(Claimed(m, nx), f');
  }

  /** From rb_reset_tail back to the addition. */
  lemma SoloRetries(m: Memory, f: Frame)
    requires MemoryShape(m) && FrameShape(f, |m.pages|) && f.pc.Reset? && f.again
    ensures var g := m.pages[f.t];
            Solo(m, f, Go(2))
            == On(SetPage(m, f.t, g.(write := g.write - Excess(f.off, f.len))), f.(pc := Add, t := m.tail))
  {
    hide Solo;
    GoDown(2);
    var g := m.pages[f.t];
    SoloStep(m, f, Proceed, Go(1));
    var m' := SetPage(m, f.t, g.(write := g.write - Excess(f.off, f.len)));
    SoloStep(m', f.(pc := ReadTail), Proceed, []);
    SoloNone(m', f.(pc := Add, t := m.tail));
  }

  lemma SoloTurns(m: Memory, f: Frame)
    requires MemoryShape(m) && FrameShape(f, |m.pages|) && AtAdd(m, f)
    requires 0 <= m.pages[m.tail].write && TooShort(m, f.len) && Next(|m.pages|, m.tail) != m.commit
    ensures Solo(m, f, Go(2))
         == On(Overflown(m, f.len), f.(pc := Bump, off := m.pages[m.tail].write, nx := Next(|m.pages|, m.tail)))
  {
    hide Solo, Overflown;
    GoDown(2);
    SoloOverflows(m, f, Proceed);
    SoloStep(m, f, Proceed, Go(1));
    var m1, f1 := Overflown(m, f.len), f.(pc := Move, off := m.pages[m.tail].write);
    OverflownPages(m, f.len);
    SoloStep(m1, f1, Proceed, []);
    SoloNone(m1, f1.(pc := Bump, nx := Next(|m.pages|, m.tail)));
  }

  /** The tail page is too short and the next page is not the commit page: the writer moves the tail and is
      back at its addition, now on an empty page. */
  lemma SoloMoves(m: Memory, f: Frame) returns (f': Frame)
    requires MemoryShape(m) && FrameShape(f, |m.pages|) && AtAdd(m, f)
    requires 0 <= m.pages[m.tail].write && TooShort(m, f.len) && Next(|m.pages|, m.tail) != m.commit
    ensures Solo(m, f, Go(9)) == On(Moved(m), f') && AtAdd(Moved(m), f') && f'.len == f.len
  {
    hide Solo, Moved, Overflown, Claimed;
    var nx, w := Next(|m.pages|, m.tail), m.pages[m.tail].write;
    SoloTurns(m, f);
    OverflownPages(m, f.len);
    var m1, f1 := Overflown(m, f.len), f.(pc := Bump, off := w, nx := nx);
    SoloJoin(m, f, Go(2), Go(5));
    var f2 := SoloClaims(m1, f1);
    SoloJoin(m, f, Go(2) + Go(5), Go(2));
    SoloRetries(Claimed(m1, nx), f2);
    ClaimedIsMoved(m, f.len);
    f' := f2.(pc := Add, t := nx);
    assert Go(2) + Go(5) + Go(2) == Go(9);
  }

  lemma ClaimedIsMoved(m: Memory, len: nat)
    requires MemoryShape(m)
    ensures var nx, w := Next(|m.pages|, m.tail), m.pages[m.tail].write;
            var m1 := Overflown(m, len);
            && MemoryShape(m1) && |m1.pages| == |m.pages| && nx < |m.pages|
            && var m2 := Claimed(m1, nx);
               && m2.tail == nx && m2.pages[m.tail] == m1.pages[m.tail]
               && SetPage(m2, m.tail, m2.pages[m.tail].(write := m2.pages[m.tail].write - Excess(w, len))) == Moved(m)
  {
    var nx, w := Next(|m.pages|, m.tail), m.pages[m.tail].write;
    var m2 := Claimed(Overflown(m, len), nx);
    var m3 := SetPage(m2, m.tail, m2.pages[m.tail].(write := m2.pages[m.tail].write - Excess(w, len)));
    assert m3.pages == Moved(m).pages;
  }

  lemma GoDown(n: nat)
    ensures Go(0) == [] && forall k :: 0 < k <= n ==> Go(k) == [Proceed] + Go(k - 1)
  {
  }

  lemma OverflownPages(m: Memory, len: nat)
    requires MemoryShape(m)
    ensures var nx := Next(|m.pages|, m.tail);
            var m1 := Overflown(m, len);
            && MemoryShape(m1) && nx != m.tail && |m1.pages| == |m.pages| && m1.pages[nx] == m.pages[nx]
            && m1.tail == m.tail && m1.commit == m.commit
            && m1.pages[m.tail] == m.pages[m.tail].(write := m.pages[m.tail].write + len)
  {
  }

  /** The verdict that there is no room, or the commit page ahead: the writer has no event, and the page is
      full as far as events go; or it is told to try again. */
  lemma SoloGivesUp(m: Memory, f: Frame, v: Verdict)
    requires MemoryShape(m) && FrameShape(f, |m.pages|) && AtAdd(m, f) && 0 <= m.pages[m.tail].write && TooShort(m, f.len)
    requires Next(|m.pages|, m.tail) == m.commit || v != Proceed
    ensures var g, retry := m.pages[m.tail], Next(|m.pages|, m.tail) != m.commit && v == Retry;
            Solo(m, f, [Proceed, v, Proceed])
            == On(SetPage(m, m.tail, g.(write := Filled(g.write))),
                  f.(pc := if retry then ReadTail else End, off := g.write, again := retry))
  {
    hide Solo, Overflown;
    var g, retry := m.pages[m.tail], Next(|m.pages|, m.tail) != m.commit && v == Retry;
    assert [Proceed, v, Proceed] == [Proceed] + [v, Proceed] && [v, Proceed] == [v] + [Proceed] && [Proceed] == [Proceed] + [];
    SoloOverflows(m, f, Proceed);
    SoloStep(m, f, Proceed, [v, Proceed]);
    var m1, f1 := Overflown(m, f.len), f.(pc := Move, off := g.write);
    OverflownPages(m, f.len);
    SoloStep(m1, f1, v, [Proceed]);
    var f2 := f1.(pc := Reset, again := retry);
    SoloStep(m1, f2, Proceed, []);
    var m2 := SetPage(m, m.tail, g.(write := Filled(g.write)));
    OverflownBack(m, f.len);
    SoloNone(m2, f2.(pc := if retry then ReadTail else End));
  }

  lemma OverflownBack(m: Memory, len: nat)
    requires MemoryShape(m)
    ensures var g := m.pages[m.tail];
            var m1 := Overflown(m, len);
            |m1.pages| == |m.pages|
            && SetPage(m1, m.tail, m1.pages[m.tail].(write := m1.pages[m.tail].write - Excess(g.write, len)))
               == SetPage(m, m.tail, g.(write := Filled(g.write)))
  {
    var g, m1 := m.pages[m.tail], Overflown(m, len);
    var m2 := SetPage(m1, m.tail, m1.pages[m.tail].(write := m1.pages[m.tail].write - Excess(g.write, len)));
    assert m2.pages == SetPage(m, m.tail, g.(write := Filled(g.write))).pages;
  }

  // ----- discarding -----

  /** The event is the newest on the tail page. */
  predicate Newest(m: Memory, f: Frame)
    requires MemoryShape(m)
  {
    f.t == m.tail && m.pages[m.tail].write == f.off + f.len
  }

  lemma DiscardSteps(m: Memory, f: Frame, v: Verdict)
    requires MemoryShape(m) && FrameShape(f, |m.pages|) && Holding(f.pc)
    ensures var g := m.pages[f.t];
            && (f.pc.Hold? && v != Proceed ==> FrameStep(m, f, v) == On(m, f.(pc := Drop)))
            && (f.pc.Drop? ==> FrameStep(m, f, v) == On(m, f.(pc := if m.tail == f.t then Look else End)))
            && (f.pc.Look? ==> FrameStep(m, f, v) == On(m, f.(pc := if g.write == f.off + f.len then Mask else End)))
            && (f.pc.Mask? ==> FrameStep(m, f, v) == On(m, f.(pc := Cut, upd := g.upd)))
            && (f.pc.Cut? && g.upd == f.upd && g.write == f.off + f.len ==>
                  FrameStep(m, f, v)
                  == On(SetPage(m, f.t, g.(write := f.off, log := AllButLast(g.log))), f.(pc := End)))
  {
  }

  /** The newest event discarded: it is gone, and its room is free again. */
  lemma SoloDiscards(m: Memory, f: Frame, v: Verdict)
    requires MemoryShape(m) && FrameShape(f, |m.pages|) && f.pc.Hold? && v != Proceed && Newest(m, f)
    ensures var g := m.pages[m.tail];
            Solo(m, f, [v] + Go(4))
            == On(SetPage(m, m.tail, g.(write := f.off, log := AllButLast(g.log))), f.(pc := End, upd := g.upd))
  {
    hide Solo, AllButLast, FrameStep;
    GoDown(4);
    var g := m.pages[m.tail];
    DiscardSteps(m, f, v);
    SoloStep(m, f, v, Go(4));
    DiscardSteps(m, f.(pc := Drop), Proceed);
    SoloStep(m, f.(pc := Drop), Proceed, Go(3));
    DiscardSteps(m, f.(pc := Look), Proceed);
    SoloStep(m, f.(pc := Look), Proceed, Go(2));
    DiscardSteps(m, f.(pc := Mask), Proceed);
    SoloStep(m, f.(pc := Mask), Proceed, Go(1));
    DiscardSteps(m, f.(pc := Cut, upd := g.upd), Proceed);
    SoloStep(m, f.(pc := Cut, upd := g.upd), Proceed, []);
    SoloNone(SetPage(m, m.tail, g.(write := f.off, log := AllButLast(g.log))), f.(pc := End, upd := g.upd));
  }

  /** Any other event stays where it is. */
  lemma SoloKeeps(m: Memory, f: Frame, v: Verdict)
    requires MemoryShape(m) && FrameShape(f, |m.pages|) && f.pc.Hold? && v != Proceed && !Newest(m, f)
    ensures Solo(m, f, [v] + Go(if f.t == m.tail then 2 else 1)) == On(m, f.(pc := End))
  {
    hide Solo, FrameStep;
    GoDown(2);
    DiscardSteps(m, f, v);
    SoloStep(m, f, v, Go(if f.t == m.tail then 2 else 1));
    DiscardSteps(m, f.(pc := Drop), Proceed);
    SoloStep(m, f.(pc := Drop), Proceed, if f.t == m.tail then Go(1) else []);
    if f.t == m.tail {
      DiscardSteps(m, f.(pc := Look), Proceed);
      SoloStep(m, f.(pc := Look), Proceed, []);
    }
    SoloNone(m, f.(pc := End));
  }

  // ----- committing -----

  /** What committing has done: the commit page is the tail page, and on every page from the old commit page
      to it everything written is readable; nothing else has changed. */
  ghost predicate Settled(m: Memory, m': Memory)
    requires MemoryShape(m)
  {
    && |m'.pages| == |m.pages| && m'.tail == m'.commit == m.tail && m'.commits == m.commits
    && forall p :: 0 <= p < |m.pages| ==>
         m'.pages[p] == m.pages[p].(commit := if Live(m, p) then m.pages[p].write else m.pages[p].commit)
  }

  /** The steps of rb_end_commit and rb_set_commit_to_write of the only writer that counts. */
  lemma CommitSteps(m: Memory, f: Frame)
    requires MemoryShape(m) && FrameShape(f, |m.pages|) && (Committer(f.pc) || Ending(f.pc))
    ensures var g := m.pages[m.commit];
            var o := FrameStep(m, f, Proceed);
            && (f.pc.End? ==> o == On(m, f.(pc := Test, saved := m.commits)))
            && (f.pc.Test? ==> o == On(m, f.(pc := if m.committing == 1 then Pages else Leave, did := m.committing == 1)))
            && (f.pc.Pages? ==> o == On(m, f.(pc := if m.commit != m.tail then Publish else Last)))
            && (f.pc.Publish? ==> o == On(m, f.(pc := Set, idx := g.write)))
            && (f.pc.Set? ==> o == On(SetPage(m, m.commit, g.(commit := f.idx)), f.(pc := Inc)))
            && (f.pc.Inc? ==> o == On(m.(commit := Next(|m.pages|, m.commit)), f.(pc := Pages)))
            && (f.pc.Last? ==> o == On(m, f.(pc := if g.commit != g.write then Read else Again)))
            && (f.pc.Read? ==> o == On(m, f.(pc := Store, idx := g.write)))
            && (f.pc.Store? ==> o == On(SetPage(m, m.commit, g.(commit := f.idx)), f.(pc := Last)))
            && (f.pc.Again? && m.commit == m.tail ==> o == On(m, f.(pc := Leave)))
            && (f.pc.Leave? ==> o == On(m.(committing := m.committing - 1), f.(pc := Compare)))
            && (f.pc.Compare? && m.commits == f.saved ==> o == Done(m))
  {
  }

  /** The commit page with everything readable. */
  function Published(m: Memory): Memory
    requires MemoryShape(m)
  {
    SetPage(m, m.commit, m.pages[m.commit].(commit := m.pages[m.commit].write))
  }

  /** One round of the first loop. */
  lemma SoloPublishes(m: Memory, f: Frame)
    requires MemoryShape(m) && FrameShape(f, |m.pages|) && f.pc.Pages? && m.commit != m.tail
    ensures Solo(m, f, Go(4))
         == On(Published(m).(commit := Next(|m.pages|, m.commit)), f.(pc := Pages, idx := m.pages[m.commit].write))
  {
    hide Solo, FrameStep;
    GoDown(4);
    CommitSteps(m, f);
    SoloStep(m, f, Proceed, Go(3));
    var f1 := f.(pc := Publish);
    CommitSteps(m, f1);
    SoloStep(m, f1, Proceed, Go(2));
    var f2 := f1.(pc := Set, idx := m.pages[m.commit].write);
    CommitSteps(m, f2);
    SoloStep(m, f2, Proceed, Go(1));
    var m3, f3 := Published(m), f2.(pc := Inc);
    CommitSteps(m3, f3);
    SoloStep(m3, f3, Proceed, []);
    SoloNone(m3.(commit := Next(|m.pages|, m.commit)), f3.(pc := Pages));
  }

  /** The second loop and the return. */
  lemma SoloFinishes(m: Memory, f: Frame)
    requires MemoryShape(m) && FrameShape(f, |m.pages|) && f.pc.Last? && m.commit == m.tail && m.commits == f.saved
    requires m.pages[m.commit].commit == m.pages[m.commit].write
    ensures Solo(m, f, Go(4)) == Done(m.(committing := m.committing - 1))
  {
    hide Solo, FrameStep;
    GoDown(4);
    CommitSteps(m, f);
    SoloStep(m, f, Proceed, Go(3));
    CommitSteps(m, f.(pc := Again));
    SoloStep(m, f.(pc := Again), Proceed, Go(2));
    CommitSteps(m, f.(pc := Leave));
    SoloStep(m, f.(pc := Leave), Proceed, Go(1));
    var m3 := m.(committing := m.committing - 1);
    CommitSteps(m3, f.(pc := Compare));
    SoloStep(m3, f.(pc := Compare), Proceed, []);
  }

  lemma SoloLasts(m: Memory, f: Frame) returns (n: nat)
    requires MemoryShape(m) && FrameShape(f, |m.pages|) && f.pc.Pages? && m.commit == m.tail && m.commits == f.saved
    ensures Solo(m, f, Go(n)) == Done(Published(m).(committing := m.committing - 1))
  {
    hide Solo, FrameStep;
    var g := m.pages[m.commit];
    CommitSteps(m, f);
    GoDown(8);
    if g.commit == g.write {
      n := 5;
      SoloStep(m, f, Proceed, Go(4));
      SoloFinishes(m, f.(pc := Last));
      assert Published(m).pages == m.pages;
    } else {
      n := 8;
      SoloStep(m, f, Proceed, Go(7));
      var f1 := f.(pc := Last);
      CommitSteps(m, f1);
      SoloStep(m, f1, Proceed, Go(6));
      CommitSteps(m, f1.(pc := Read));
      SoloStep(m, f1.(pc := Read), Proceed, Go(5));
      var f3 := f1.(pc := Store, idx := g.write);
      CommitSteps(m, f3);
      SoloStep(m, f3, Proceed, Go(4));
      SoloFinishes(Published(m), f3.(pc := Last));
    }
  }

  /** From the first loop on, over as many pages as it takes. */
  lemma {:induction false} SoloSettles(m: Memory, f: Frame) returns (n: nat, m': Memory)
    requires MemoryShape(m) && FrameShape(f, |m.pages|) && f.pc.Pages? && m.commits == f.saved
    ensures Solo(m, f, Go(n)) == Done(m') && Settled(m, m') && m'.committing == m.committing - 1
    decreases Lag(m, m.tail)
  {
    hide Solo, FrameStep, Settled;
    if m.commit == m.tail {
      n := SoloLasts(m, f);
      m' := Published(m).(committing := m.committing - 1);
      SettledHere(m);
    } else {
      SoloPublishes(m, f);
      var m1, f1 := Published(m).(commit := Next(|m.pages|, m.commit)), f.(pc := Pages, idx := m.pages[m.commit].write);
      LagFalls(m, m1);
      n, m' := SoloSettles(m1, f1);
      SoloJoin(m, f, Go(4), Go(n));
      assert Go(4) + Go(n) == Go(4 + n);
      n := 4 + n;
      SettledOn(m, m');
    }
  }

  lemma LagFalls(m: Memory, m1: Memory)
    requires MemoryShape(m) && m.commit != m.tail && m1.commit == Next(|m.pages|, m.commit)
    requires |m1.pages| == |m.pages| && m1.tail == m.tail
    ensures Lag(m1, m1.tail) == Lag(m, m.tail) - 1 && Lag(m, m.tail) > 0
    ensures forall p :: 0 <= p < |m.pages| ==> (Live(m, p) <==> p == m.commit || Live(m1, p))
    ensures !Live(m1, m.commit)
  {
  }

  lemma SettledHere(m: Memory)
    requires MemoryShape(m) && m.commit == m.tail
    ensures Settled(m, Published(m).(committing := m.committing - 1))
  {
  }

  lemma SettledOn(m: Memory, m': Memory)
    requires MemoryShape(m) && m.commit != m.tail
    requires Settled(Published(m).(commit := Next(|m.pages|, m.commit)), m')
    ensures Settled(m, m')
  {
    LagFalls(m, Published(m).(commit := Next(|m.pages|, m.commit)));
  }

  /** The outermost writer's rb_end_commit. */
  lemma SoloCommits(m: Memory, f: Frame) returns (n: nat, m': Memory)
    requires MemoryShape(m) && FrameShape(f, |m.pages|) && f.pc.End? && m.committing == 1
    ensures Solo(m, f, Go(n)) == Done(m') && Settled(m, m') && m'.committing == 0
  {
    hide Solo, FrameStep, Settled;
    CommitSteps(m, f);
    var f1 := f.(pc := Test, saved := m.commits);
    CommitSteps(m, f1);
    n, m' := SoloSettles(m, f1.(pc := Pages, did := true));
    GoFirst(n + 2);
    GoFirst(n + 1);
    SoloStep(m, f, Proceed, Go(n + 1));
    SoloStep(m, f1, Proceed, Go(n));
    n := n + 2;
  }

  /** A writer inside another one's turn leaves the committing to it. */
  lemma SoloLeaves(m: Memory, f: Frame)
    requires MemoryShape(m) && FrameShape(f, |m.pages|) && f.pc.End? && m.committing != 1
    ensures Solo(m, f, Go(4)) == Done(m.(committing := m.committing - 1))
  {
    hide Solo, FrameStep;
    GoDown(4);
    CommitSteps(m, f);
    SoloStep(m, f, Proceed, Go(3));
    var f1 := f.(pc := Test, saved := m.commits);
    CommitSteps(m, f1);
    SoloStep(m, f1, Proceed, Go(2));
    var f2 := f1.(pc := Leave, did := false);
    CommitSteps(m, f2);
    SoloStep(m, f2, Proceed, Go(1));
    var m3 := m.(committing := m.committing - 1);
    CommitSteps(m3, f2.(pc := Compare));
    SoloStep(m3, f2.(pc := Compare), Proceed, []);
  }

  // ----- in every run -----

  function Steps(vs: seq<Verdict>): (acts: seq<Action>)
    ensures |acts| == |vs|
  {
    seq(|vs|, i requires 0 <= i < |vs| => Step(vs[i]))
  }

  /** The state when the top frame has gone on alone. */
  function After(o: Outcome, below: seq<Frame>): State {
    match o
    case On(m, f) => State(m, below + [f])
    case Done(m) => State(m, below)
  }

  /** Steps of the top frame in a run: as many of them as it takes to its return. */
  lemma {:induction false} RunSolo(n: nat, acts: seq<Action>, m: Memory, below: seq<Frame>, f: Frame, vs: seq<Verdict>)
    returns (k: nat)
    requires n >= 2 && Run(n, acts) == State(m, below + [f])
    ensures MemoryShape(m) && FrameShape(f, |m.pages|) && |m.pages| == n
    ensures k <= |vs| && Run(n, acts + Steps(vs[..k])) == After(Solo(m, f, vs), below)
    decreases |vs|
  {
    hide Run, Solo, FrameStep, Inv;
    RunInv(n, acts);
    TopShape(m, below, f);
    SoloNone(m, f);
    k := 0;
    if vs == [] {
      assert Steps([]) == [] && acts + [] == acts;
    } else {
      var v, rest := vs[0], vs[1..];
      assert vs == [v] + rest;
      SoloStep(m, f, v, rest);
      RunOneMore(n, acts, Step(v));
      TopSteps(m, below, f, v);
      var o := FrameStep(m, f, v);
      assert Steps([v]) == [Step(v)];
      if o.On? {
        k := RunSolo(n, acts + [Step(v)], o.m, below, o.f, rest);
        assert vs[..k + 1] == [v] + rest[..k];
        assert Steps([v] + rest[..k]) == [Step(v)] + Steps(rest[..k]);
        assert acts + ([Step(v)] + Steps(rest[..k])) == (acts + [Step(v)]) + Steps(rest[..k]);
        k := k + 1;
      } else {
        k := 1;
        assert vs[..1] == [v];
      }
    }
  }

  lemma RunInv(n: nat, acts: seq<Action>)
    requires n >= 2
    ensures Inv(Run(n, acts)) && Shape(Run(n, acts)) && |Run(n, acts).m.pages| == n
  {
  }

  lemma TopShape(m: Memory, below: seq<Frame>, f: Frame)
    requires Shape(State(m, below + [f]))
    ensures FrameShape(f, |m.pages|)
  {
    assert (below + [f])[|below|] == f;
  }

  lemma TopSteps(m: Memory, below: seq<Frame>, f: Frame, v: Verdict)
    requires Shape(State(m, below + [f])) && FrameShape(f, |m.pages|)
    ensures Do(State(m, below + [f]), Step(v)) == After(FrameStep(m, f, v), below)
  {
    hide FrameStep;
    assert (below + [f])[..|below|] == below && (below + [f])[|below|] == f;
  }

  /** The write index of a page in use is not negative, whatever has overflowed it. */
  lemma {:induction false} UnderLow(frames: seq<Frame>, p: nat, w: int)
    requires Chain(frames, p, w)
    ensures Under(frames, p, w) <= w
    decreases |frames|
  {
    if frames != [] {
      var f := frames[|frames| - 1];
      UnderLow(frames[..|frames| - 1], p, if Overflowed(f.pc) && f.t == p then f.off else w);
    }
  }

  lemma TailWrite(n: nat, acts: seq<Action>)
    requires n >= 2
    ensures var m := Run(n, acts).m;
            MemoryShape(m) && |m.pages| == n && m.pages[m.tail].write >= 0 && m.committing == CountedIn(Run(n, acts).frames)
  {
    hide Run, Under, Chain, Tiled, CountedIn, FrameOk, PairOk;
    var s := Run(n, acts);
    RunInv(n, acts);
    assert Live(s.m, s.m.tail);
    assert PageOk(s.frames, s.m.pages[s.m.tail], s.m.tail, s.m.tail == s.m.commit);
    UnderLow(s.frames, s.m.tail, s.m.pages[s.m.tail].write);
  }

  /** Where a writer finds room: on the tail page, or on the next one if that is not the commit page. */
  predicate HasRoom(m: Memory, len: nat)
    requires MemoryShape(m)
  {
    TooShort(m, len) ==> Next(|m.pages|, m.tail) != m.commit
  }

  /** The memory with one more event on the page where there was room for it. */
  function Reserved(m: Memory, len: nat): Memory
    requires MemoryShape(m) && m.pages[m.tail].write >= 0
  {
    var m1 := if TooShort(m, len) then Moved(m) else m;
    SetPage(m1, m1.tail, WithEvent(m1.pages[m1.tail], len)).(committing := m.committing + 1, commits := m.commits + 1)
  }

  lemma {:induction false} SoloReserves(m: Memory, len: nat) returns (k: nat, f: Frame)
    requires MemoryShape(m) && MIN_EVENT <= len <= PAGE_SIZE && m.pages[m.tail].write >= 0 && HasRoom(m, len)
    ensures Solo(m, NewFrame(len), Go(k)) == On(Reserved(m, len), f)
    ensures f.pc.Hold? && f.len == len && f.t == Reserved(m, len).tail
    ensures f.off == if TooShort(m, len) then 0 else m.pages[m.tail].write
  {
    hide Solo, Moved, NewFrame;
    FreshShape(m, len);
    SoloStarts(m, len);
    var m1 := m.(committing := m.committing + 1, commits := m.commits + 1);
    var f1 := NewFrame(len).(pc := Add, t := m.tail);
    if TooShort(m, len) {
      var f2 := SoloMoves(m1, f1);
      MovedCounts(m);
      SoloAdds(Moved(m1), f2);
      SoloJoin(m, NewFrame(len), Go(3), Go(9));
      SoloJoin(m, NewFrame(len), Go(3) + Go(9), Go(1));
      assert Go(3) + Go(9) + Go(1) == Go(13);
      k, f := 13, f2.(pc := Hold, off := 0);
    } else {
      SoloAdds(m1, f1);
      SoloJoin(m, NewFrame(len), Go(3), Go(1));
      assert Go(3) + Go(1) == Go(4);
      k, f := 4, f1.(pc := Hold, off := m.pages[m.tail].write);
    }
  }

  lemma FreshShape(m: Memory, len: nat)
    requires MemoryShape(m) && MIN_EVENT <= len <= PAGE_SIZE
    ensures FrameShape(NewFrame(len), |m.pages|) && NewFrame(len).len == len
  {
  }

  lemma MovedCounts(m: Memory)
    requires MemoryShape(m)
    ensures var m1 := m.(committing := m.committing + 1, commits := m.commits + 1);
            Moved(m1) == Moved(m).(committing := m.committing + 1, commits := m.commits + 1)
    ensures var m2 := Moved(m);
            && |m2.pages| == |m.pages| && m2.tail == Next(|m.pages|, m.tail)
            && m2.pages[m2.tail].write == 0 && m2.pages[m2.tail].log == [] && m2.pages[m2.tail].commit == 0
            && m2.committing == m.committing && m2.commits == m.commits && m2.commit == m.commit
  {
  }

  /** The memory a writer leaves behind, but for what is readable: with its event or, if that was discarded,
      without it. */
  function Left(m: Memory, len: nat, keep: bool): Memory
    requires MemoryShape(m) && m.pages[m.tail].write >= 0
  {
    if keep then Reserved(m, len).(committing := m.committing)
    else (if TooShort(m, len) then Moved(m) else m).(commits := m.commits + 1)
  }

  /** The event taken back. */
  lemma TakenBack(m: Memory, len: nat)
    requires MemoryShape(m) && m.pages[m.tail].write >= 0
    ensures var m2 := Reserved(m, len);
            && MemoryShape(m2) && |m2.pages| == |m.pages|
            && var g := m2.pages[m2.tail];
               SetPage(m2, m2.tail, g.(write := g.write - len, log := AllButLast(g.log)))
               == Left(m, len, false).(committing := m.committing + 1)
  {
    hide Moved, AllButLast;
    MovedCounts(m);
    var m1 := if TooShort(m, len) then Moved(m) else m;
    EventCut(m1.pages[m1.tail], len);
    PageBack(m1.pages, m1.tail, WithEvent(m1.pages[m1.tail], len));
  }

  lemma EventCut(g: Page, len: nat)
    requires g.write >= 0
    ensures var h := WithEvent(g, len); h.(write := h.write - len, log := AllButLast(h.log)) == g
  {
    assert (g.log + [Event(g.write, len)])[..|g.log|] == g.log;
  }

  lemma PageBack(pages: seq<Page>, p: nat, g: Page)
    requires p < |pages|
    ensures pages[p := g][p := pages[p]] == pages
  {
  }

  /** From Hold to the end of the reservation's use. */
  lemma {:induction false} SoloUses(m: Memory, f: Frame, keep: bool) returns (vs: seq<Verdict>, f': Frame)
    requires MemoryShape(m) && FrameShape(f, |m.pages|) && f.pc.Hold? && Newest(m, f)
    ensures f'.pc.End?
    ensures var g := m.pages[m.tail];
            Solo(m, f, vs)
            == On(if keep then m else SetPage(m, m.tail, g.(write := f.off, log := AllButLast(g.log))), f')
  {
    hide Solo;
    if keep {
      vs, f' := [Proceed], f.(pc := End);
      assert [Proceed] == [Proceed] + [];
      SoloStep(m, f, Proceed, []);
      SoloNone(m, f');
    } else {
      vs, f' := [Retry] + Go(4), f.(pc := End, upd := m.pages[m.tail].upd);
      SoloDiscards(m, f, Retry);
    }
  }

  /** What the outermost writer has made readable. */
  ghost predicate Committed(m: Memory, outermost: bool, m': Memory)
    requires MemoryShape(m)
  {
    if outermost then Settled(m, m') && m'.committing == 0 else m' == m
  }

  lemma {:induction false} SoloEnds(m: Memory, f: Frame) returns (n: nat, m': Memory)
    requires MemoryShape(m) && FrameShape(f, |m.pages|) && f.pc.End? && m.committing >= 1
    ensures Solo(m, f, Go(n)) == Done(m')
    ensures Committed(m.(committing := m.committing - 1), m.committing == 1, m')
  {
    hide Solo;
    if m.committing == 1 {
      n, m' := SoloCommits(m, f);
    } else {
      n, m' := 4, m.(committing := m.committing - 1);
      SoloLeaves(m, f);
    }
  }

  lemma {:induction false} SoloWriter(m: Memory, len: nat, keep: bool) returns (vs: seq<Verdict>, m': Memory)
    requires MemoryShape(m) && MIN_EVENT <= len <= PAGE_SIZE && m.pages[m.tail].write >= 0 && HasRoom(m, len)
    requires m.committing >= 0
    ensures MemoryShape(Left(m, len, keep)) && Solo(m, NewFrame(len), vs) == Done(m')
    ensures Committed(Left(m, len, keep), m.committing == 0, m')
  {
    hide Solo, Moved, NewFrame, Committed, Reserved, Left;
    FreshShape(m, len);
    ReservedShape(m, len);
    var k, f := SoloReserves(m, len);
    var m2 := Reserved(m, len);
    var us, f' := SoloUses(m2, f, keep);
    TakenBack(m, len);
    var m3 := Left(m, len, keep).(committing := m.committing + 1);
    LeftShape(m, len, keep);
    var e;
    e, m' := SoloEnds(m3, f');
    SoloJoin(m, NewFrame(len), Go(k), us);
    SoloJoin(m, NewFrame(len), Go(k) + us, Go(e));
    vs := Go(k) + us + Go(e);
  }

  lemma ReservedShape(m: Memory, len: nat)
    requires MemoryShape(m) && m.pages[m.tail].write >= 0
    ensures var m2 := Reserved(m, len);
            && MemoryShape(m2) && |m2.pages| == |m.pages|
            && m2.pages[m2.tail].write == len + if TooShort(m, len) then 0 else m.pages[m.tail].write
  {
    hide Moved;
    MovedCounts(m);
  }

  lemma LeftShape(m: Memory, len: nat, keep: bool)
    requires MemoryShape(m) && m.pages[m.tail].write >= 0
    ensures var m3 := Left(m, len, keep);
            MemoryShape(m3) && |m3.pages| == |m.pages| && m3.committing == m.committing
    ensures Left(m, len, true).(committing := m.committing + 1) == Reserved(m, len)
  {
    hide Moved;
    MovedCounts(m);
  }

  /** Whatever run came before, a writer that nobody interrupts and that finds room gets its event: on the
      tail page, or at offset 0 of the next page, with the tail on it and the old page full. */
  lemma {:induction false} ReserveAlone(n: nat, acts: seq<Action>, len: nat) returns (k: nat, f: Frame)
    requires n >= 2 && MIN_EVENT <= len <= PAGE_SIZE && HasRoom(Run(n, acts).m, len)
    ensures Run(n, acts).m.pages[Run(n, acts).m.tail].write >= 0
    ensures var s := Run(n, acts);
            && Run(n, acts + ([Interrupt(len)] + Steps(Go(k)))) == State(Reserved(s.m, len), s.frames + [f])
            && f.pc.Hold? && f.len == len && f.t == Reserved(s.m, len).tail
            && f.off == if TooShort(s.m, len) then 0 else s.m.pages[s.m.tail].write
  {
    hide Run, Solo, Reserved, NewFrame, Inv;
    var s := Run(n, acts);
    TailWrite(n, acts);
    var j, g := SoloReserves(s.m, len);
    k := RunAlone(n, acts, len, Go(j));
    f := g;
    assert Go(j)[..k] == Go(k);
  }

  /** A new writer's steps in a run. */
  lemma {:induction false} RunAlone(n: nat, acts: seq<Action>, len: nat, vs: seq<Verdict>) returns (k: nat)
    requires n >= 2 && MIN_EVENT <= len <= PAGE_SIZE
    ensures MemoryShape(Run(n, acts).m) && FrameShape(NewFrame(len), |Run(n, acts).m.pages|)
    ensures k <= |vs|
    ensures Run(n, acts + ([Interrupt(len)] + Steps(vs[..k])))
         == After(Solo(Run(n, acts).m, NewFrame(len), vs), Run(n, acts).frames)
  {
    hide Run, Solo, NewFrame, Inv;
    var s := Run(n, acts);
    RunInv(n, acts);
    FreshShape(s.m, len);
    RunOneMore(n, acts, Interrupt(len));
    k := RunSolo(n, acts + [Interrupt(len)], s.m, s.frames, NewFrame(len), vs);
    assert acts + ([Interrupt(len)] + Steps(vs[..k])) == (acts + [Interrupt(len)]) + Steps(vs[..k]);
  }

  /** Whatever run came before, such a writer comes to its end.  The writers below it are as they were; its
      event is on its page, or its room is free again if it was discarded; and if no other writer is at
      work everything written is readable. */
  lemma {:induction false} WriterAlone(n: nat, acts: seq<Action>, len: nat, keep: bool) returns (vs: seq<Verdict>)
    requires n >= 2 && MIN_EVENT <= len <= PAGE_SIZE && HasRoom(Run(n, acts).m, len)
    ensures Run(n, acts).m.pages[Run(n, acts).m.tail].write >= 0
    ensures var s, t := Run(n, acts), Run(n, acts + ([Interrupt(len)] + Steps(vs)));
            && t.frames == s.frames
            && MemoryShape(Left(s.m, len, keep)) && Committed(Left(s.m, len, keep), s.m.committing == 0, t.m)
            && (s.m.committing == 0 ==> CaughtUp(t.m))
  {
    hide Run, Solo, Left, NewFrame, Inv, Committed;
    var s := Run(n, acts);
    TailWrite(n, acts);
    var us, m' := SoloWriter(s.m, len, keep);
    var k := RunAlone(n, acts, len, us);
    vs := us[..k];
    if s.m.committing == 0 {
      CommittedCaughtUp(Left(s.m, len, keep), m');
    }
  }

  lemma CommittedCaughtUp(m: Memory, m': Memory)
    requires MemoryShape(m) && Committed(m, true, m')
    ensures MemoryShape(m') && CaughtUp(m')
  {
    assert Live(m, m.tail);
  }

  /** With nobody at work there is always room, so a writer always gets its event, and it is readable at the
      end. */
  lemma {:induction false} QuietWriter(n: nat, acts: seq<Action>, len: nat) returns (vs: seq<Verdict>)
    requires n >= 2 && MIN_EVENT <= len <= PAGE_SIZE && Run(n, acts).frames == []
    ensures var s, t := Run(n, acts), Run(n, acts + ([Interrupt(len)] + Steps(vs)));
            var w := s.m.pages[s.m.tail].write;
            var short := w + len > 4080;
            && t.frames == [] && 0 <= w
            && t.m.tail == t.m.commit == (if !short then s.m.tail else if s.m.tail + 1 == n then 0 else s.m.tail + 1)
            && t.m.pages[t.m.tail].log
               == (if short then [Event(0, len)] else s.m.pages[s.m.tail].log + [Event(w, len)])
            && t.m.pages[t.m.tail].write == t.m.pages[t.m.tail].commit == (if short then len else w + len)
            && (short ==> t.m.pages[s.m.tail].log == s.m.pages[s.m.tail].log)
  {
    hide Run, Committed, Inv, Moved;
    var s := Run(n, acts);
    TailWrite(n, acts);
    LastOneOutCatchesUp(n, acts, Interrupt(len));
    MovedCounts(s.m);
    vs := WriterAlone(n, acts, len, true);
    var t := Run(n, acts + ([Interrupt(len)] + Steps(vs)));
    QuietPages(s.m, len, t.m);
  }

  lemma QuietPages(m: Memory, len: nat, m': Memory)
    requires MemoryShape(m) && m.commit == m.tail && m.pages[m.tail].write >= 0
    requires MemoryShape(Left(m, len, true)) && Committed(Left(m, len, true), true, m')
    ensures var w := m.pages[m.tail].write;
            var short := w + len > 4080;
            && m'.tail == m'.commit == (if !short then m.tail else Next(|m.pages|, m.tail)) < |m'.pages| && m.tail < |m'.pages|
            && m'.pages[m'.tail].log == (if short then [Event(0, len)] else m.pages[m.tail].log + [Event(w, len)])
            && m'.pages[m'.tail].write == m'.pages[m'.tail].commit == (if short then len else w + len)
            && (short ==> m'.pages[m.tail].log == m.pages[m.tail].log)
  {
    var m2 := Left(m, len, true);
    assert Live(m2, m2.tail);
    assert m'.pages[m2.tail] == m2.pages[m2.tail].(commit := m2.pages[m2.tail].write);
    assert m'.pages[m.tail].log == m2.pages[m.tail].log;
  }
}
