/**
 The reserve and commit protocol of ring_buffer.c.  Writers on one CPU interrupt each other at
 any point and run to completion, so they form a stack; only the top frame runs.  Every step is
 one access to the shared counters: the write index of a page with its updater count, the
 commit index of a page, tail_page, commit_page, `committing` and `commits`.
 */
module NestedCommit {

  const PAGE_SIZE := 4080      // BUF_PAGE_SIZE: 4096 less the 16-byte page header
  const MIN_EVENT := 8         // RB_EVNT_MIN_SIZE

  datatype Event = Event(off: int, len: nat)

  /** `upd` and `write` are the two halves of the page's write counter; `log` records the events
      reserved on the page since its write index was last zeroed, less those cut off again. */
  datatype Page = Page(upd: nat, write: int, commit: int, log: seq<Event>)

  /** The program points of rb_reserve_next_event, the commit or discard, and rb_end_commit. */
  datatype Pc =
    | Start        // before committing++
    | Count        // before commits++
    | ReadTail     // at `again`
    | Add          // before adding to the write index
    | Move         // went past the end: rb_move_tail
    | Bump         // before adding RB_WRITE_INTCNT
    | Check        // rb_tail_page_update compares tail_page
    | Zero         // before the cmpxchg that zeroes the write index
    | ZeroCommit   // before clearing the commit index
    | SetTail      // before the cmpxchg on tail_page
    | Reset        // rb_reset_tail
    | Hold         // the caller fills the event
    | Drop         // rb_try_to_discard compares tail_page
    | Look         // it compares the write index
    | Mask         // before reading the updater count
    | Cut          // before the cmpxchg on the write counter
    | End          // rb_end_commit, at `again`
    | Test
    | Pages        // first loop of rb_set_commit_to_write
    | Publish
    | Set
    | Inc
    | Last         // second loop
    | Read
    | Store
    | Again
    | Leave        // before committing--
    | Compare
    | Retest
    | Rejoin       // before committing++ and `again`

  /** A writer: the length it reserves and its local variables.  `did` remembers that it went
      through rb_set_commit_to_write in this turn. */
  datatype Frame = Frame(pc: Pc, len: nat, t: nat, off: int, nx: nat, upd: nat, idx: int,
                         again: bool, saved: nat, did: bool)

  /** The shared words of one per-CPU buffer. */
  datatype Memory = Memory(
    pages: seq<Page>,
    tail: nat,
    commit: nat,
    committing: int,
    commits: nat)

  datatype State = State(m: Memory, frames: seq<Frame>)

  /** What the parts outside this model decide: whether the head page could be moved out of the
      way, and whether the caller commits or discards. */
  datatype Verdict = Proceed | Retry | Refuse

  datatype Action = Interrupt(len: nat) | Step(v: Verdict)

  function Next(n: nat, p: nat): nat {
    if p + 1 == n then 0 else p + 1
  }

  /** How much rb_reset_tail takes back from the write index. */
  function Excess(off: int, len: nat): int {
    if off > PAGE_SIZE - MIN_EVENT then len else off + len - PAGE_SIZE
  }

  predicate FrameShape(f: Frame, n: nat) {
    f.t < n && f.nx < n && MIN_EVENT <= f.len <= PAGE_SIZE
  }

  predicate MemoryShape(m: Memory) {
    |m.pages| >= 2 && m.tail < |m.pages| && m.commit < |m.pages|
  }

  predicate Shape(s: State) {
    && MemoryShape(s.m)
    && forall i | 0 <= i < |s.frames| :: FrameShape(s.frames[i], |s.m.pages|)
  }

  function AllButLast(log: seq<Event>): seq<Event> {
    if log == [] then [] else log[..|log| - 1]
  }

  /** What one step of a frame yields: the frame goes on, or returns from the C function. */
  datatype Outcome = On(m: Memory, f: Frame) | Done(m: Memory)

  function SetPage(m: Memory, p: nat, page: Page): Memory
    requires p < |m.pages|
  {
    m.(pages := m.pages[p := page])
  }

  predicate Reserving(pc: Pc) {
    pc.Start? || pc.Count? || pc.ReadTail? || pc.Add? || pc.Move? || pc.Reset?
  }

  /** In rb_tail_page_update. */
  predicate Moving(pc: Pc) {
    pc.Bump? || Bumped(pc)
  }

  predicate Bumped(pc: Pc) {
    pc.Check? || pc.Zero? || pc.ZeroCommit? || pc.SetTail?
  }

  /** It has an event, and neither the commit nor the discard of it has got through. */
  predicate Holding(pc: Pc) {
    pc.Hold? || pc.Drop? || pc.Look? || pc.Mask? || pc.Cut?
  }

  /** It runs rb_set_commit_to_write. */
  predicate Committer(pc: Pc) {
    pc.Pages? || Publishing(pc) || Finishing(pc) || pc.Again?
  }

  predicate Publishing(pc: Pc) {
    pc.Publish? || pc.Set? || pc.Inc?
  }

  predicate Finishing(pc: Pc) {
    pc.Last? || pc.Read? || pc.Store?
  }

  predicate Ending(pc: Pc) {
    pc.End? || pc.Test? || pc.Leave? || pc.Compare? || pc.Retest? || pc.Rejoin?
  }

  /** In rb_start_commit, __rb_reserve_next and rb_move_tail. */
  function ReserveStep(m: Memory, f: Frame, v: Verdict): Outcome
    requires MemoryShape(m) && FrameShape(f, |m.pages|) && Reserving(f.pc)
  {
    match f.pc
    case Start => On(m.(committing := m.committing + 1), f.(pc := Count))
    case Count => On(m.(commits := m.commits + 1), f.(pc := ReadTail))
    case ReadTail => On(m, if v.Refuse? then f.(pc := End) else f.(pc := Add, t := m.tail))
    case Add =>
      var g := m.pages[f.t];
      var w := g.write + f.len;
      if w <= PAGE_SIZE then
        On(SetPage(m, f.t, g.(write := w, log := g.log + [Event(g.write, f.len)])), f.(pc := Hold, off := g.write))
      else
        On(SetPage(m, f.t, g.(write := w)), f.(pc := Move, off := g.write))
    case Move =>
      On(m, if Next(|m.pages|, f.t) == m.commit || v.Refuse? then f.(pc := Reset, again := false)
            else if v.Retry? then f.(pc := Reset, again := true)
            else f.(pc := Bump, nx := Next(|m.pages|, f.t)))
    case Reset =>
      var g := m.pages[f.t];
      On(SetPage(m, f.t, g.(write := g.write - Excess(f.off, f.len))), f.(pc := if f.again then ReadTail else End))
  }

  function MoveStep(m: Memory, f: Frame): Outcome
    requires MemoryShape(m) && FrameShape(f, |m.pages|) && Moving(f.pc)
  {
    match f.pc
    case Bump =>
      var g := m.pages[f.nx];
      On(SetPage(m, f.nx, g.(upd := g.upd + 1)), f.(pc := Check, upd := g.upd + 1, idx := g.write))
    case Check =>
      On(m, if f.t == m.tail then f.(pc := Zero) else f.(pc := Reset, again := true))
    case Zero =>
      var g := m.pages[f.nx];
      On(if g.upd == f.upd && g.write == f.idx then SetPage(m, f.nx, g.(write := 0, log := [])) else m,
         f.(pc := ZeroCommit))
    case ZeroCommit =>
      On(SetPage(m, f.nx, m.pages[f.nx].(commit := 0)), f.(pc := SetTail))
    case SetTail =>
      On(if m.tail == f.t then m.(tail := f.nx) else m, f.(pc := Reset, again := true))
  }

  /** In the caller, and in ring_buffer_discard_commit. */
  function EventStep(m: Memory, f: Frame, v: Verdict): Outcome
    requires MemoryShape(m) && FrameShape(f, |m.pages|) && Holding(f.pc)
  {
    match f.pc
    case Hold => On(m, f.(pc := if v.Proceed? then End else Drop))
    case Drop => On(m, f.(pc := if m.tail == f.t then Look else End))
    case Look => On(m, f.(pc := if m.pages[f.t].write == f.off + f.len then Mask else End))
    case Mask => On(m, f.(pc := Cut, upd := m.pages[f.t].upd))
    case Cut =>
      var g := m.pages[f.t];
      On(if g.upd == f.upd && g.write == f.off + f.len then
           SetPage(m, f.t, g.(write := f.off, log := AllButLast(g.log)))
         else m,
         f.(pc := End))
  }

  function CommitStep(m: Memory, f: Frame): Outcome
    requires MemoryShape(m) && FrameShape(f, |m.pages|) && Committer(f.pc)
  {
    var g := m.pages[m.commit];
    match f.pc
    case Pages => On(m, f.(pc := if m.commit != m.tail then Publish else Last))
    case Publish => On(m, f.(pc := Set, idx := g.write))
    case Set => On(SetPage(m, m.commit, g.(commit := f.idx)), f.(pc := Inc))
    case Inc => On(m.(commit := Next(|m.pages|, m.commit)), f.(pc := Pages))
    case Last => On(m, f.(pc := if g.commit != g.write then Read else Again))
    case Read => On(m, f.(pc := Store, idx := g.write))
    case Store => On(SetPage(m, m.commit, g.(commit := f.idx)), f.(pc := Last))
    case Again => On(m, f.(pc := if m.commit != m.tail then Pages else Leave))
  }

  /** In rb_end_commit. */
  function EndStep(m: Memory, f: Frame): Outcome
    requires MemoryShape(m) && FrameShape(f, |m.pages|) && Ending(f.pc)
  {
    match f.pc
    case End => On(m, f.(pc := Test, saved := m.commits))
    case Test =>
      On(m, f.(pc := if m.committing == 1 then Pages else Leave, did := m.committing == 1))
    case Leave => On(m.(committing := m.committing - 1), f.(pc := Compare))
    case Compare => if m.commits != f.saved then On(m, f.(pc := Retest)) else Done(m)
    case Retest => if m.committing == 0 then On(m, f.(pc := Rejoin)) else Done(m)
    case Rejoin => On(m.(committing := m.committing + 1), f.(pc := End))
  }

  /** One step of a running frame. */
  function FrameStep(m: Memory, f: Frame, v: Verdict): Outcome
    requires MemoryShape(m) && FrameShape(f, |m.pages|)
  {
    if Reserving(f.pc) then ReserveStep(m, f, v)
    else if Moving(f.pc) then MoveStep(m, f)
    else if Holding(f.pc) then EventStep(m, f, v)
    else if Committer(f.pc) then CommitStep(m, f)
    else EndStep(m, f)
  }

  /** One step of the top frame. */
  function StepTop(s: State, v: Verdict): State
    requires Shape(s) && |s.frames| > 0
  {
    var below := s.frames[..|s.frames| - 1];
    match FrameStep(s.m, s.frames[|s.frames| - 1], v)
    case On(m, f) => State(m, below + [f])
    case Done(m) => State(m, below)
  }

  function NewFrame(len: nat): Frame {
    Frame(Start, len, 0, 0, 0, 0, 0, false, 0, false)
  }

  predicate Enabled(s: State, a: Action) {
    match a
    case Interrupt(len) => MIN_EVENT <= len <= PAGE_SIZE
    case Step(v) => |s.frames| > 0
  }

  function Do(s: State, a: Action): State
    requires Shape(s)
  {
    if !Enabled(s, a) then s
    else match a
      case Interrupt(len) => s.(frames := s.frames + [NewFrame(len)])
      case Step(v) => StepTop(s, v)
  }

  function Init(n: nat): State
    requires n >= 2
  {
    State(Memory(seq(n, i => Page(0, 0, 0, [])), 0, 0, 0, 0), [])
  }

  ghost predicate OutcomeShape(m: Memory, f: Frame, o: Outcome) {
    MemoryShape(o.m) && |o.m.pages| == |m.pages| && (o.On? ==> FrameShape(o.f, |m.pages|) && o.f.len == f.len)
  }

  lemma ReserveShape(m: Memory, f: Frame, v: Verdict)
    requires MemoryShape(m) && FrameShape(f, |m.pages|) && Reserving(f.pc)
    ensures OutcomeShape(m, f, ReserveStep(m, f, v))
  {
  }

  lemma MoveShape(m: Memory, f: Frame)
    requires MemoryShape(m) && FrameShape(f, |m.pages|) && Moving(f.pc)
    ensures OutcomeShape(m, f, MoveStep(m, f))
  {
  }

  lemma EventShape(m: Memory, f: Frame, v: Verdict)
    requires MemoryShape(m) && FrameShape(f, |m.pages|) && Holding(f.pc)
    ensures OutcomeShape(m, f, EventStep(m, f, v))
  {
  }

  lemma CommitShape(m: Memory, f: Frame)
    requires MemoryShape(m) && FrameShape(f, |m.pages|) && Committer(f.pc)
    ensures OutcomeShape(m, f, CommitStep(m, f))
  {
  }

  lemma EndShape(m: Memory, f: Frame)
    requires MemoryShape(m) && FrameShape(f, |m.pages|) && Ending(f.pc)
    ensures OutcomeShape(m, f, EndStep(m, f))
  {
  }

  lemma FrameStepShape(m: Memory, f: Frame, v: Verdict)
    requires MemoryShape(m) && FrameShape(f, |m.pages|)
    ensures OutcomeShape(m, f, FrameStep(m, f, v))
  {
    if Reserving(f.pc) { ReserveShape(m, f, v); }
    else if Moving(f.pc) { MoveShape(m, f); }
    else if Holding(f.pc) { EventShape(m, f, v); }
    else if Committer(f.pc) { CommitShape(m, f); }
    else { EndShape(m, f); }
  }

  lemma StepKeepsShape(s: State, a: Action)
    requires Shape(s)
    ensures Shape(Do(s, a)) && |Do(s, a).m.pages| == |s.m.pages|
  {
    if a.Step? && |s.frames| > 0 { FrameStepShape(s.m, s.frames[|s.frames| - 1], a.v); }
  }

  // ----- The invariant --------------------------------------------------------------------------

  /** The frame knows a tail page. */
  predicate HasPage(pc: Pc) {
    pc.Add? || Overflowed(pc) || Holding(pc)
  }

  /** Its addition went past the end of the page and is not taken back yet. */
  predicate Overflowed(pc: Pc) {
    pc.Move? || pc.Reset? || Moving(pc)
  }

  /** It counts in `committing`. */
  predicate Counted(pc: Pc) {
    !(pc.Start? || pc.Compare? || pc.Retest? || pc.Rejoin?)
  }

  /** It has read `commits` in rb_end_commit. */
  predicate HasSaved(pc: Pc) {
    Committer(pc) || (Ending(pc) && !pc.End?)
  }

  function CountedIn(frames: seq<Frame>): nat {
    if frames == [] then 0
    else CountedIn(frames[..|frames| - 1]) + (if Counted(frames[|frames| - 1].pc) then 1 else 0)
  }

  /** How far page `p` is ahead of the commit page. */
  function Lag(m: Memory, p: nat): int {
    if p >= m.commit then p - m.commit else p + |m.pages| - m.commit
  }

  predicate Live(m: Memory, p: nat) {
    Lag(m, p) <= Lag(m, m.tail)
  }

  predicate CaughtUp(m: Memory)
    requires MemoryShape(m)
  {
    m.commit == m.tail && m.pages[m.commit].commit == m.pages[m.commit].write
  }

  /** The write index of page `p` once the additions that overflowed it are taken away. */
  function Under(frames: seq<Frame>, p: nat, w: int): int {
    if frames == [] then w
    else
      var f := frames[|frames| - 1];
      Under(frames[..|frames| - 1], p, if Overflowed(f.pc) && f.t == p then f.off else w)
  }

  /** The overflowing additions to page `p` lie on top of each other, above the end of the page. */
  predicate Chain(frames: seq<Frame>, p: nat, w: int) {
    if frames == [] then true
    else
      var f := frames[|frames| - 1];
      var mine := Overflowed(f.pc) && f.t == p;
      && (mine ==> f.off + f.len == w > PAGE_SIZE)
      && Chain(frames[..|frames| - 1], p, if mine then f.off else w)
  }

  /** The events of a page follow each other without a gap, from its start. */
  predicate Tiled(log: seq<Event>) {
    log == [] ||
    var before, last := log[..|log| - 1], log[|log| - 1];
    Tiled(before) && last.len >= MIN_EVENT && last.off == EndOf(before)
  }

  function EndOf(log: seq<Event>): int {
    if log == [] then 0 else log[|log| - 1].off + log[|log| - 1].len
  }

  predicate PageOk(frames: seq<Frame>, g: Page, p: nat, isCommit: bool) {
    var u := Under(frames, p, g.write);
    && Chain(frames, p, g.write)
    && Tiled(g.log)
    && 0 <= u <= PAGE_SIZE
    && (u == EndOf(g.log) || (u == PAGE_SIZE && EndOf(g.log) <= PAGE_SIZE - MIN_EVENT))
    && (if isCommit then 0 <= g.commit <= u else g.commit == 0)
  }

  /** What a frame may rely on, whatever interrupts it. */
  ghost predicate FrameOk(f: Frame, m: Memory)
    requires MemoryShape(m) && FrameShape(f, |m.pages|)
  {
    && (HasPage(f.pc) ==> Live(m, f.t))
    && (Holding(f.pc) ==>
         && f.off + f.len <= PAGE_SIZE
         && Event(f.off, f.len) in m.pages[f.t].log
         && m.pages[f.t].commit <= f.off)
    && (Moving(f.pc) ==> MovingOk(f, m))
    && (HasSaved(f.pc) ==> f.saved <= m.commits)
    && (Committer(f.pc) ==> f.did)
    && (Publishing(f.pc) ==> m.commit != m.tail)
    && (f.pc.Set? ==> f.idx == m.pages[m.commit].write)
    && (f.pc.Inc? ==> m.pages[m.commit].commit == m.pages[m.commit].write)
    && (Finishing(f.pc) && m.commits == f.saved ==> m.commit == m.tail)
    && (f.pc.Again? || ((f.pc.Leave? || f.pc.Compare?) && f.did) ==> m.commits == f.saved ==> CaughtUp(m))
  }

  ghost predicate MovingOk(f: Frame, m: Memory)
    requires MemoryShape(m) && FrameShape(f, |m.pages|)
  {
    var g := m.pages[f.nx];
    && f.nx == Next(|m.pages|, f.t) && f.nx != m.commit
    && (Bumped(f.pc) ==> f.upd <= g.upd)
    && (f.pc.Check? || f.pc.Zero? ==> g.upd == f.upd && m.tail == f.t ==> g.write == f.idx)
    && (f.pc.Zero? ==> g.upd == f.upd ==> m.tail == f.t)
    && (f.pc.ZeroCommit? || f.pc.SetTail? ==> m.tail == f.t ==> g.write == 0 && g.log == [])
    && (f.pc.SetTail? ==> m.tail == f.t ==> g.commit == 0)
  }

  /** What holds between a frame and one that interrupted it. */
  ghost predicate PairOk(f: Frame, g: Frame, m: Memory) {
    && (Committer(g.pc) ==> !Counted(f.pc))
    && (Holding(f.pc) && Holding(g.pc) && f.t == g.t ==> f.off + f.len <= g.off)
    && (Bumped(f.pc) && Bumped(g.pc) && f.nx == g.nx ==> f.upd < g.upd)
    && (HasSaved(f.pc) && f.saved == m.commits ==> g.pc.Start? || g.pc.Count?)
    && (Publishing(f.pc) && HasPage(g.pc) ==> g.t != m.commit)
    && (f.pc.Store? && Holding(g.pc) && g.t == m.commit ==> f.idx <= g.off)
  }

  /** What a frame relies on about its place in the stack. */
  ghost predicate PlaceOk(s: State, i: nat)
    requires Shape(s) && i < |s.frames|
  {
    var f := s.frames[i];
    && (f.pc.Check? || f.pc.Zero? ==>
          s.m.tail == f.t && f.upd < s.m.pages[f.nx].upd ==>
          exists k | i < k < |s.frames| :: Bumped(s.frames[k].pc) && s.frames[k].nx == f.nx)
    && ((f.pc.Leave? || f.pc.Compare?) && !f.did ==>
          exists k | 0 <= k < i :: Counted(s.frames[k].pc))
    && (f.pc.Store? ==> 0 <= f.idx <= Under(s.frames, s.m.commit, s.m.pages[s.m.commit].write))
  }

  ghost predicate Inv(s: State) {
    && Shape(s)
    && s.m.committing == CountedIn(s.frames)
    && (forall i | 0 <= i < |s.frames| :: FrameOk(s.frames[i], s.m))
    && (forall i | 0 <= i < |s.frames| :: PlaceOk(s, i))
    && (forall i, j | 0 <= i < j < |s.frames| :: PairOk(s.frames[i], s.frames[j], s.m))
    && (forall p | 0 <= p < |s.m.pages| && Live(s.m, p) ::
          PageOk(s.frames, s.m.pages[p], p, p == s.m.commit))
    && (s.frames == [] ==> CaughtUp(s.m))
  }

  lemma InitInv(n: nat)
    requires n >= 2
    ensures Inv(Init(n))
  {
  }

  // ----- The stack seen from its top ------------------------------------------------------------

  /** A write index inside the page has nothing stacked on it. */
  lemma {:induction false} NothingOver(frames: seq<Frame>, p: nat, w: int, w': int)
    requires Chain(frames, p, w) && w <= PAGE_SIZE
    ensures Under(frames, p, w') == w' && Chain(frames, p, w')
  {
    if frames != [] { NothingOver(frames[..|frames| - 1], p, w, w'); }
  }

  lemma {:induction false} NobodyOver(frames: seq<Frame>, p: nat, w: int)
    requires forall i | 0 <= i < |frames| :: !(Overflowed(frames[i].pc) && frames[i].t == p)
    ensures Under(frames, p, w) == w && Chain(frames, p, w)
  {
    if frames != [] { NobodyOver(frames[..|frames| - 1], p, w); }
  }

  lemma {:induction false} NobodyCounted(frames: seq<Frame>)
    ensures CountedIn(frames) == 0 <==> forall i | 0 <= i < |frames| :: !Counted(frames[i].pc)
  {
    if frames != [] { NobodyCounted(frames[..|frames| - 1]); }
  }

  lemma {:induction false} EventInside(log: seq<Event>, e: Event)
    requires Tiled(log) && e in log
    ensures 0 <= e.off && e.off + e.len <= EndOf(log) && e.len >= MIN_EVENT
    ensures e != log[|log| - 1] ==> e in AllButLast(log) && e.off + e.len <= log[|log| - 1].off
  {
    var before, last := log[..|log| - 1], log[|log| - 1];
    assert log == before + [last];
    EndNotNegative(before);
    if e != last { EventInside(before, e); }
  }

  lemma {:induction false} EndNotNegative(log: seq<Event>)
    requires Tiled(log)
    ensures EndOf(log) >= 0
  {
    if log != [] { EndNotNegative(log[..|log| - 1]); }
  }

  lemma TiledAppend(log: seq<Event>, e: Event)
    requires Tiled(log) && e.len >= MIN_EVENT && e.off == EndOf(log)
    ensures Tiled(log + [e]) && EndOf(log + [e]) == e.off + e.len
  {
    assert (log + [e])[..|log|] == log;
  }

  lemma AfterTail(m: Memory)
    requires MemoryShape(m) && Next(|m.pages|, m.tail) != m.commit
    ensures Lag(m, Next(|m.pages|, m.tail)) == Lag(m, m.tail) + 1
  {
  }

  /** Under and Chain for the stack `below` with `f` on top. */
  function UnderTop(below: seq<Frame>, f: Frame, p: nat, w: int): int {
    Under(below, p, if Overflowed(f.pc) && f.t == p then f.off else w)
  }

  predicate TopPageOk(below: seq<Frame>, f: Frame, g: Page, p: nat, isCommit: bool) {
    var mine := Overflowed(f.pc) && f.t == p;
    var v := if mine then f.off else g.write;
    var u := Under(below, p, v);
    && (mine ==> f.off + f.len == g.write > PAGE_SIZE)
    && Chain(below, p, v)
    && Tiled(g.log)
    && 0 <= u <= PAGE_SIZE
    && (u == EndOf(g.log) || (u == PAGE_SIZE && EndOf(g.log) <= PAGE_SIZE - MIN_EVENT))
    && (if isCommit then 0 <= g.commit <= u else g.commit == 0)
  }

  /** What a frame below the top `f` relies on about its place. */
  ghost predicate PlaceBelow(m: Memory, below: seq<Frame>, f: Frame, i: nat)
    requires MemoryShape(m) && i < |below| && FrameShape(below[i], |m.pages|)
  {
    var g := below[i];
    && (g.pc.Check? || g.pc.Zero? ==>
          m.tail == g.t && g.upd < m.pages[g.nx].upd && !(Bumped(f.pc) && f.nx == g.nx) ==>
          exists k | i < k < |below| :: Bumped(below[k].pc) && below[k].nx == g.nx)
    && ((g.pc.Leave? || g.pc.Compare?) && !g.did ==> exists k | 0 <= k < i :: Counted(below[k].pc))
    && (g.pc.Store? ==> 0 <= g.idx <= UnderTop(below, f, m.commit, m.pages[m.commit].write))
  }

  /** What the top frame `f` relies on about its place. */
  ghost predicate PlaceTop(m: Memory, below: seq<Frame>, f: Frame)
    requires MemoryShape(m) && FrameShape(f, |m.pages|)
  {
    && (f.pc.Check? || f.pc.Zero? ==> m.tail == f.t ==> f.upd >= m.pages[f.nx].upd)
    && ((f.pc.Leave? || f.pc.Compare?) && !f.did ==> exists k | 0 <= k < |below| :: Counted(below[k].pc))
    && (f.pc.Store? ==> 0 <= f.idx <= UnderTop(below, f, m.commit, m.pages[m.commit].write))
  }

  /** The invariant of a non-empty stack, with its top frame apart. */
  ghost predicate TopInv(m: Memory, below: seq<Frame>, f: Frame) {
    && MemoryShape(m) && FrameShape(f, |m.pages|)
    && (forall i | 0 <= i < |below| :: FrameShape(below[i], |m.pages|))
    && m.committing == CountedIn(below) + (if Counted(f.pc) then 1 else 0)
    && FrameOk(f, m) && PlaceTop(m, below, f)
    && (forall i | 0 <= i < |below| :: FrameOk(below[i], m) && PlaceBelow(m, below, f, i) && PairOk(below[i], f, m))
    && (forall i, j | 0 <= i < j < |below| :: PairOk(below[i], below[j], m))
    && (forall p | 0 <= p < |m.pages| && Live(m, p) :: TopPageOk(below, f, m.pages[p], p, p == m.commit))
  }

  lemma UnderOfTop(below: seq<Frame>, f: Frame, p: nat, w: int)
    ensures Under(below + [f], p, w) == UnderTop(below, f, p, w)
    ensures Chain(below + [f], p, w) <==>
              && (Overflowed(f.pc) && f.t == p ==> f.off + f.len == w > PAGE_SIZE)
              && Chain(below, p, if Overflowed(f.pc) && f.t == p then f.off else w)
    ensures CountedIn(below + [f]) == CountedIn(below) + (if Counted(f.pc) then 1 else 0)
  {
    assert (below + [f])[..|below|] == below;
  }

  lemma InvGivesTop(m: Memory, below: seq<Frame>, f: Frame)
    requires Inv(State(m, below + [f]))
    ensures TopInv(m, below, f)
  {
    var s := State(m, below + [f]);
    assert s.frames[|below|] == f;
    assert forall i | 0 <= i < |below| :: s.frames[i] == below[i];
    UnderOfTop(below, f, m.commit, m.pages[m.commit].write);
    forall i | 0 <= i < |below| ensures PlaceBelow(m, below, f, i) {
      assert PlaceOk(s, i);
    }
    assert PlaceOk(s, |below|);
    forall p | 0 <= p < |m.pages| && Live(m, p) ensures TopPageOk(below, f, m.pages[p], p, p == m.commit) {
      UnderOfTop(below, f, p, m.pages[p].write);
    }
  }

  lemma TopGivesInv(m: Memory, below: seq<Frame>, f: Frame)
    requires TopInv(m, below, f)
    ensures Inv(State(m, below + [f]))
  {
    var s := State(m, below + [f]);
    assert s.frames[|below|] == f;
    assert forall i | 0 <= i < |below| :: s.frames[i] == below[i];
    UnderOfTop(below, f, m.commit, m.pages[m.commit].write);
    forall i | 0 <= i <= |below| ensures PlaceOk(s, i) {
      if i < |below| {
        assert PlaceBelow(m, below, f, i);
        assert Bumped(f.pc) ==> Bumped(s.frames[|below|].pc);
        PlaceFromBelow(m, below, f, i);
      }
    }
    forall p | 0 <= p < |m.pages| && Live(m, p) ensures PageOk(s.frames, m.pages[p], p, p == m.commit) {
      UnderOfTop(below, f, p, m.pages[p].write);
    }
  }

  lemma PlaceFromBelow(m: Memory, below: seq<Frame>, f: Frame, i: nat)
    requires Shape(State(m, below + [f])) && i < |below| && FrameShape(below[i], |m.pages|) && PlaceBelow(m, below, f, i)
    ensures PlaceOk(State(m, below + [f]), i)
  {
    var s := State(m, below + [f]);
    var g := below[i];
    assert s.frames[i] == g;
    UnderOfTop(below, f, m.commit, m.pages[m.commit].write);
    if (g.pc.Check? || g.pc.Zero?) && m.tail == g.t && g.upd < m.pages[g.nx].upd {
      if Bumped(f.pc) && f.nx == g.nx {
        assert s.frames[|below|] == f;
      } else {
        var k :| i < k < |below| && Bumped(below[k].pc) && below[k].nx == g.nx;
        assert s.frames[k] == below[k];
      }
    }
    if (g.pc.Leave? || g.pc.Compare?) && !g.did {
      var k :| 0 <= k < i && Counted(below[k].pc);
      assert s.frames[k] == below[k];
    }
  }

  // ----- Steps that change local variables or counters only -------------------------------------

  lemma LocalStep(m: Memory, below: seq<Frame>, f: Frame, f': Frame)
    requires TopInv(m, below, f) && FrameShape(f', |m.pages|)
    requires Counted(f.pc) == Counted(f'.pc)
    requires Overflowed(f.pc) == Overflowed(f'.pc)
    requires Overflowed(f.pc) ==> f.t == f'.t && f.off == f'.off && f.len == f'.len
    requires Bumped(f.pc) ==> (Bumped(f'.pc) && f.nx == f'.nx) || (f.nx == Next(|m.pages|, f.t) && m.tail != f.t)
    requires FrameOk(f', m) && PlaceTop(m, below, f')
    requires forall i | 0 <= i < |below| :: PairOk(below[i], f', m)
    ensures TopInv(m, below, f')
  {
    hide Under, Chain, Tiled, EndOf, PairOk, CountedIn;
  }

  /** The facts that tie the lower frame `below[i]` to the memory and to the top frame. */
  ghost predicate Tied(m: Memory, below: seq<Frame>, f: Frame, i: nat) {
    && MemoryShape(m) && FrameShape(f, |m.pages|) && i < |below| && FrameShape(below[i], |m.pages|)
    && FrameOk(below[i], m) && PlaceBelow(m, below, f, i) && PairOk(below[i], f, m)
  }

  /** The step changes the frame's own variables only, and leaves it in order. */
  ghost predicate OwnStep(m: Memory, below: seq<Frame>, f: Frame, f': Frame) {
    && MemoryShape(m) && FrameShape(f, |m.pages|) && FrameShape(f', |m.pages|)
    && Counted(f.pc) == Counted(f'.pc) && Overflowed(f.pc) == Overflowed(f'.pc)
    && (Overflowed(f.pc) ==> f.t == f'.t && f.off == f'.off && f.len == f'.len)
    && (Bumped(f.pc) ==> (Bumped(f'.pc) && f.nx == f'.nx) || (f.nx == Next(|m.pages|, f.t) && m.tail != f.t))
    && FrameOk(f', m) && PlaceTop(m, below, f')
  }

  lemma {:induction false} OwnKeeps(m: Memory, below: seq<Frame>, f: Frame, f': Frame)
    requires TopInv(m, below, f) && OwnStep(m, below, f, f')
    requires forall i | 0 <= i < |below| :: PairOk(below[i], f', m)
    ensures TopInv(m, below, f')
  {
    LocalStep(m, below, f, f');
  }

  lemma {:induction false} ReserveOwn(m: Memory, below: seq<Frame>, f: Frame, v: Verdict)
    requires MemoryShape(m) && FrameShape(f, |m.pages|) && FrameOk(f, m) && PlaceTop(m, below, f)
    requires f.pc.ReadTail? || f.pc.Move?
    ensures OwnStep(m, below, f, ReserveStep(m, f, v).f)
  {
    hide UnderTop;
  }

  lemma ReserveLocal(m: Memory, below: seq<Frame>, f: Frame, v: Verdict)
    requires TopInv(m, below, f) && (f.pc.ReadTail? || f.pc.Move?)
    ensures TopInv(m, below, ReserveStep(m, f, v).f)
  {
    hide Under, Chain, Tiled, TopPageOk, PairOk, PlaceBelow, CountedIn, EndOf;
    var f' := ReserveStep(m, f, v).f;
    ReserveOwn(m, below, f, v);
    hide FrameOk, PlaceTop, OwnStep, ReserveStep;
    forall i | 0 <= i < |below| ensures PairOk(below[i], f', m) { ReservePair(m, below, f, v, i); }
    OwnKeeps(m, below, f, f');
  }

  lemma ReservePair(m: Memory, below: seq<Frame>, f: Frame, v: Verdict, i: nat)
    requires Tied(m, below, f, i) && (f.pc.ReadTail? || f.pc.Move?)
    ensures PairOk(below[i], ReserveStep(m, f, v).f, m)
  {
  }

  lemma CheckLocal(m: Memory, below: seq<Frame>, f: Frame)
    requires TopInv(m, below, f) && f.pc.Check?
    ensures TopInv(m, below, MoveStep(m, f).f)
  {
    hide Under, Chain, Tiled, TopPageOk, PairOk, PlaceBelow, CountedIn, EndOf;
    var f' := MoveStep(m, f).f;
    forall i | 0 <= i < |below| ensures PairOk(below[i], f', m) { CheckPair(m, below, f, i); }
    LocalStep(m, below, f, f');
  }

  lemma CheckPair(m: Memory, below: seq<Frame>, f: Frame, i: nat)
    requires Tied(m, below, f, i) && f.pc.Check?
    ensures PairOk(below[i], MoveStep(m, f).f, m)
  {
  }

  lemma {:induction false} EventOwn(m: Memory, below: seq<Frame>, f: Frame, v: Verdict)
    requires MemoryShape(m) && FrameShape(f, |m.pages|) && FrameOk(f, m) && PlaceTop(m, below, f)
    requires f.pc.Hold? || f.pc.Drop? || f.pc.Look? || f.pc.Mask?
    ensures OwnStep(m, below, f, EventStep(m, f, v).f)
  {
    hide UnderTop;
  }

  lemma EventLocal(m: Memory, below: seq<Frame>, f: Frame, v: Verdict)
    requires TopInv(m, below, f) && (f.pc.Hold? || f.pc.Drop? || f.pc.Look? || f.pc.Mask?)
    ensures TopInv(m, below, EventStep(m, f, v).f)
  {
    hide Under, Chain, Tiled, TopPageOk, PairOk, PlaceBelow, CountedIn, EndOf, FrameOk, PlaceTop, OwnStep;
    var f' := EventStep(m, f, v).f;
    EventOwn(m, below, f, v);
    forall i | 0 <= i < |below| ensures PairOk(below[i], f', m) { EventPair(m, below, f, v, i); }
    OwnKeeps(m, below, f, f');
  }

  lemma EventPair(m: Memory, below: seq<Frame>, f: Frame, v: Verdict, i: nat)
    requires Tied(m, below, f, i) && (f.pc.Hold? || f.pc.Drop? || f.pc.Look? || f.pc.Mask?)
    ensures PairOk(below[i], EventStep(m, f, v).f, m)
  {
  }

  lemma CommitPair(m: Memory, below: seq<Frame>, f: Frame, i: nat)
    requires Tied(m, below, f, i) && Committer(f.pc)
    ensures PairOk(below[i], CommitStep(m, f).f, m)
    ensures !Counted(below[i].pc) && !HasPage(below[i].pc)
  {
  }

  lemma PagesLocal(m: Memory, below: seq<Frame>, f: Frame)
    requires TopInv(m, below, f) && (f.pc.Pages? || f.pc.Publish?)
    ensures TopInv(m, below, CommitStep(m, f).f)
  {
    hide Under, Chain, Tiled, TopPageOk, PairOk, PlaceBelow, CountedIn, EndOf;
    var f' := CommitStep(m, f).f;
    forall i | 0 <= i < |below| ensures PairOk(below[i], f', m) { CommitPair(m, below, f, i); }
    LocalStep(m, below, f, f');
  }

  lemma LastLocal(m: Memory, below: seq<Frame>, f: Frame)
    requires TopInv(m, below, f) && (f.pc.Last? || f.pc.Again?)
    ensures TopInv(m, below, CommitStep(m, f).f)
  {
    hide Under, Chain, Tiled, TopPageOk, PairOk, PlaceBelow, CountedIn, EndOf;
    var f' := CommitStep(m, f).f;
    forall i | 0 <= i < |below| ensures PairOk(below[i], f', m) { CommitPair(m, below, f, i); }
    LocalStep(m, below, f, f');
  }

  /** While a frame publishes, nobody below it has a page. */
  lemma CommitPageFacts(m: Memory, below: seq<Frame>, f: Frame)
    requires TopInv(m, below, f) && Committer(f.pc)
    ensures UnderTop(below, f, m.commit, m.pages[m.commit].write) == m.pages[m.commit].write
    ensures TopPageOk(below, f, m.pages[m.commit], m.commit, true)
  {
    assert Live(m, m.commit);
    forall i | 0 <= i < |below| ensures !HasPage(below[i].pc) { CommitPair(m, below, f, i); }
    NobodyOver(below, m.commit, m.pages[m.commit].write);
  }

  lemma ReadLocal(m: Memory, below: seq<Frame>, f: Frame)
    requires TopInv(m, below, f) && f.pc.Read?
    ensures TopInv(m, below, CommitStep(m, f).f)
  {
    CommitPageFacts(m, below, f);
    var f' := CommitStep(m, f).f;
    forall i | 0 <= i < |below| ensures PairOk(below[i], f', m) { CommitPair(m, below, f, i); }
    LocalStep(m, below, f, f');
  }

  lemma {:induction false} EndOwn(m: Memory, below: seq<Frame>, f: Frame)
    requires MemoryShape(m) && FrameShape(f, |m.pages|) && FrameOk(f, m) && PlaceTop(m, below, f)
    requires f.pc.End? || ((f.pc.Compare? || f.pc.Retest?) && EndStep(m, f).On?)
    ensures OwnStep(m, below, f, EndStep(m, f).f)
  {
    hide UnderTop;
  }

  lemma EndLocal(m: Memory, below: seq<Frame>, f: Frame)
    requires TopInv(m, below, f)
    requires f.pc.End? || ((f.pc.Compare? || f.pc.Retest?) && EndStep(m, f).On?)
    ensures TopInv(m, below, EndStep(m, f).f)
  {
    hide Under, Chain, Tiled, TopPageOk, PairOk, PlaceBelow, EndOf;
    var f' := EndStep(m, f).f;
    EndOwn(m, below, f);
    hide FrameOk, PlaceTop, OwnStep;
    forall i | 0 <= i < |below| ensures PairOk(below[i], f', m) { EndPair(m, below, f, i); }
    OwnKeeps(m, below, f, f');
  }

  lemma EndPair(m: Memory, below: seq<Frame>, f: Frame, i: nat)
    requires Tied(m, below, f, i) && Ending(f.pc) && EndStep(m, f).On?
    requires f.pc.Test? && m.committing == 1 ==> !Counted(below[i].pc)
    ensures PairOk(below[i], EndStep(m, f).f, m)
  {
    hide Under, UnderTop, Chain, PlaceBelow, MovingOk, CaughtUp;
  }

  lemma TestLocal(m: Memory, below: seq<Frame>, f: Frame)
    requires TopInv(m, below, f) && f.pc.Test?
    ensures TopInv(m, below, EndStep(m, f).f)
  {
    hide Under, Chain, Tiled, TopPageOk, PairOk, PlaceBelow, EndOf;
    var f' := EndStep(m, f).f;
    NobodyCounted(below);
    forall i | 0 <= i < |below| ensures PairOk(below[i], f', m) { EndPair(m, below, f, i); }
    LocalStep(m, below, f, f');
  }

  /** Steps that move one of the two counters. */
  lemma CounterStep(m: Memory, below: seq<Frame>, f: Frame, committing: int, commits: nat, f': Frame)
    requires TopInv(m, below, f) && FrameShape(f', |m.pages|)
    requires commits == m.commits || (f.pc.Count? && commits == m.commits + 1)
    requires committing - m.committing == (if Counted(f'.pc) then 1 else 0) - (if Counted(f.pc) then 1 else 0)
    requires !Overflowed(f.pc) && !Overflowed(f'.pc)
    requires FrameOk(f', m.(committing := committing, commits := commits))
    requires PlaceTop(m, below, f')
    requires forall i | 0 <= i < |below| :: PairOk(below[i], f', m.(committing := committing, commits := commits))
    ensures TopInv(m.(committing := committing, commits := commits), below, f')
  {
    var m' := m.(committing := committing, commits := commits);
    forall i | 0 <= i < |below| ensures FrameOk(below[i], m') && PlaceBelow(m', below, f', i) {
      assert FrameOk(below[i], m) && PlaceBelow(m, below, f, i);
    }
    forall i, j | 0 <= i < j < |below| ensures PairOk(below[i], below[j], m') {
      assert PairOk(below[i], below[j], m) && FrameOk(below[i], m);
    }
    forall p | 0 <= p < |m'.pages| && Live(m', p) ensures TopPageOk(below, f', m'.pages[p], p, p == m'.commit) {
      assert Live(m, p);
    }
  }

  lemma StartStep(m: Memory, below: seq<Frame>, f: Frame)
    requires TopInv(m, below, f) && (f.pc.Start? || f.pc.Count?)
    ensures TopInv(ReserveStep(m, f, Proceed).m, below, ReserveStep(m, f, Proceed).f)
  {
    hide Under, Chain, Tiled, TopPageOk, EndOf;
    var o := ReserveStep(m, f, Proceed);
    CounterStep(m, below, f, o.m.committing, o.m.commits, o.f);
  }

  lemma LeaveStep(m: Memory, below: seq<Frame>, f: Frame)
    requires TopInv(m, below, f) && (f.pc.Leave? || f.pc.Rejoin?)
    ensures TopInv(EndStep(m, f).m, below, EndStep(m, f).f)
  {
    hide Under, Chain, Tiled, EndOf, TopPageOk;
    var o := EndStep(m, f);
    CounterStep(m, below, f, o.m.committing, o.m.commits, o.f);
  }

  // ----- Steps that rewrite a page ----------------------------------------------------------------

  /** A lower frame after the top frame has rewritten page `p`. */
  lemma BelowKeeps(m: Memory, below: seq<Frame>, f: Frame, p: nat, page: Page, i: nat)
    requires Tied(m, below, f, i) && p < |m.pages|
    requires !f.pc.Start? && !f.pc.Count?
    requires var g := below[i];
      && (Holding(g.pc) && g.t == p ==> Event(g.off, g.len) in page.log && page.commit <= g.off)
      && (Moving(g.pc) && g.nx == p ==> MovingOk(g, SetPage(m, p, page)))
      && (Publishing(g.pc) ==> p != m.commit)
    ensures FrameOk(below[i], SetPage(m, p, page))
  {
  }

  /** The stack after such a step, given what each lower frame and the page need. */
  lemma PageStep(m: Memory, below: seq<Frame>, f: Frame, p: nat, page: Page, f': Frame)
    requires TopInv(m, below, f) && p < |m.pages| && FrameShape(f', |m.pages|)
    requires !f.pc.Start? && !f.pc.Count? && Counted(f.pc) && Counted(f'.pc)
    requires Overflowed(f.pc) && f.t != p ==> Overflowed(f'.pc) && f'.t == f.t && f'.off == f.off && f'.len == f.len
    requires Overflowed(f'.pc) && f'.t != p ==> Overflowed(f.pc) && f'.t == f.t && f'.off == f.off && f'.len == f.len
    requires FrameOk(f', SetPage(m, p, page)) && PlaceTop(SetPage(m, p, page), below, f')
    requires forall i | 0 <= i < |below| ::
      && FrameOk(below[i], SetPage(m, p, page))
      && PlaceBelow(SetPage(m, p, page), below, f', i)
      && PairOk(below[i], f', m)
    requires Live(m, p) ==> TopPageOk(below, f', page, p, p == m.commit)
    ensures TopInv(SetPage(m, p, page), below, f')
  {
    var m' := SetPage(m, p, page);
    forall i, j | 0 <= i < j < |below| ensures PairOk(below[i], below[j], m') {
      assert PairOk(below[i], below[j], m);
    }
    forall q | 0 <= q < |m'.pages| && Live(m', q) ensures TopPageOk(below, f', m'.pages[q], q, q == m'.commit) {
      assert Live(m, q);
      if q != p { assert TopPageOk(below, f, m.pages[q], q, q == m.commit); }
    }
  }

  /** The page after the tail page holds nobody's event. */
  lemma NextIsFree(m: Memory, g: Frame)
    requires MemoryShape(m) && FrameShape(g, |m.pages|) && Moving(g.pc) && MovingOk(g, m) && m.tail == g.t
    ensures !Live(m, g.nx)
  {
    AfterTail(m);
  }

  /** The event fits on the page. */
  lemma FitsPage(below: seq<Frame>, f: Frame, page: Page, isCommit: bool)
    requires f.pc.Add? && f.len >= MIN_EVENT && page.write + f.len <= PAGE_SIZE
    requires TopPageOk(below, f, page, f.t, isCommit)
    ensures page.write == EndOf(page.log) && page.commit <= page.write
    ensures Under(below, f.t, page.write + f.len) == page.write + f.len && Under(below, f.t, page.write) == page.write
    ensures TopPageOk(below, f.(pc := Hold, off := page.write),
                      page.(write := page.write + f.len, log := page.log + [Event(page.write, f.len)]), f.t, isCommit)
  {
    NothingOver(below, f.t, page.write, page.write);
    NothingOver(below, f.t, page.write, page.write + f.len);
    TiledAppend(page.log, Event(page.write, f.len));
    EndNotNegative(page.log);
  }

  lemma {:induction false} FitsFrame(m: Memory, below: seq<Frame>, f: Frame, i: nat)
    requires Tied(m, below, f, i) && f.pc.Add? && FrameOk(f, m) && m.pages[f.t].write + f.len <= PAGE_SIZE
    requires TopPageOk(below, f, m.pages[f.t], f.t, f.t == m.commit)
    ensures FrameOk(below[i], ReserveStep(m, f, Proceed).m)
  {
    hide PlaceBelow, Chain, Under;
    var o := ReserveStep(m, f, Proceed);
    var g, page := below[i], m.pages[f.t];
    FitsPage(below, f, page, f.t == m.commit);
    if Holding(g.pc) && g.t == f.t { EventInside(page.log, Event(g.off, g.len)); }
    if Moving(g.pc) && m.tail == g.t { NextIsFree(m, g); }
    BelowKeeps(m, below, f, f.t, o.m.pages[f.t], i);
  }

  lemma {:induction false} FitsBelow(m: Memory, below: seq<Frame>, f: Frame, i: nat)
    requires Tied(m, below, f, i) && f.pc.Add? && FrameOk(f, m) && m.pages[f.t].write + f.len <= PAGE_SIZE
    requires TopPageOk(below, f, m.pages[f.t], f.t, f.t == m.commit)
    ensures var o := ReserveStep(m, f, Proceed);
      FrameOk(below[i], o.m) && PlaceBelow(o.m, below, o.f, i) && PairOk(below[i], o.f, m)
  {
    var g, page := below[i], m.pages[f.t];
    FitsFrame(m, below, f, i);
    FitsPage(below, f, page, f.t == m.commit);
    if Holding(g.pc) && g.t == f.t { EventInside(page.log, Event(g.off, g.len)); }
  }

  lemma AddFits(m: Memory, below: seq<Frame>, f: Frame)
    requires TopInv(m, below, f) && f.pc.Add? && m.pages[f.t].write + f.len <= PAGE_SIZE
    ensures TopInv(ReserveStep(m, f, Proceed).m, below, ReserveStep(m, f, Proceed).f)
  {
    hide Under, Chain, Tiled, TopPageOk, PairOk, PlaceBelow, EndOf, CountedIn;
    var o := ReserveStep(m, f, Proceed);
    assert TopPageOk(below, f, m.pages[f.t], f.t, f.t == m.commit);
    FitsPage(below, f, m.pages[f.t], f.t == m.commit);
    forall i | 0 <= i < |below|
      ensures FrameOk(below[i], o.m) && PlaceBelow(o.m, below, o.f, i) && PairOk(below[i], o.f, m)
    {
      FitsBelow(m, below, f, i);
    }
    PageStep(m, below, f, f.t, o.m.pages[f.t], o.f);
  }

  lemma OverflowBelow(m: Memory, below: seq<Frame>, f: Frame, i: nat)
    requires Tied(m, below, f, i) && f.pc.Add? && FrameOk(f, m) && m.pages[f.t].write + f.len > PAGE_SIZE
    ensures var o := ReserveStep(m, f, Proceed);
      FrameOk(below[i], o.m) && PlaceBelow(o.m, below, o.f, i) && PairOk(below[i], o.f, m)
  {
    var o := ReserveStep(m, f, Proceed);
    var g := below[i];
    if Moving(g.pc) && m.tail == g.t { NextIsFree(m, g); }
    BelowKeeps(m, below, f, f.t, o.m.pages[f.t], i);
  }

  lemma AddOverflows(m: Memory, below: seq<Frame>, f: Frame)
    requires TopInv(m, below, f) && f.pc.Add? && m.pages[f.t].write + f.len > PAGE_SIZE
    ensures TopInv(ReserveStep(m, f, Proceed).m, below, ReserveStep(m, f, Proceed).f)
  {
    hide Under, Chain, Tiled, EndOf, PairOk, PlaceBelow;
    var o := ReserveStep(m, f, Proceed);
    assert TopPageOk(below, f, m.pages[f.t], f.t, f.t == m.commit);
    forall i | 0 <= i < |below|
      ensures FrameOk(below[i], o.m) && PlaceBelow(o.m, below, o.f, i) && PairOk(below[i], o.f, m)
    {
      OverflowBelow(m, below, f, i);
    }
    PageStep(m, below, f, f.t, o.m.pages[f.t], o.f);
  }

  lemma ResetPage(m: Memory, below: seq<Frame>, f: Frame)
    requires MemoryShape(m) && FrameShape(f, |m.pages|) && f.pc.Reset?
    requires TopPageOk(below, f, m.pages[f.t], f.t, f.t == m.commit)
    ensures var o := ReserveStep(m, f, Proceed);
      && TopPageOk(below, o.f, o.m.pages[f.t], f.t, f.t == m.commit)
      && UnderTop(below, f, f.t, m.pages[f.t].write) <= UnderTop(below, o.f, f.t, o.m.pages[f.t].write)
  {
    if f.off <= PAGE_SIZE - MIN_EVENT {
      NothingOver(below, f.t, f.off, f.off);
      NothingOver(below, f.t, f.off, PAGE_SIZE);
    }
  }

  lemma ResetBelow(m: Memory, below: seq<Frame>, f: Frame, i: nat)
    requires Tied(m, below, f, i) && f.pc.Reset? && FrameOk(f, m)
    requires TopPageOk(below, f, m.pages[f.t], f.t, f.t == m.commit)
    ensures var o := ReserveStep(m, f, Proceed);
      FrameOk(below[i], o.m) && PlaceBelow(o.m, below, o.f, i) && PairOk(below[i], o.f, m)
  {
    var o := ReserveStep(m, f, Proceed);
    var g := below[i];
    ResetPage(m, below, f);
    if Moving(g.pc) && m.tail == g.t { NextIsFree(m, g); }
    BelowKeeps(m, below, f, f.t, o.m.pages[f.t], i);
  }

  lemma ResetStep(m: Memory, below: seq<Frame>, f: Frame)
    requires TopInv(m, below, f) && f.pc.Reset?
    ensures TopInv(ReserveStep(m, f, Proceed).m, below, ReserveStep(m, f, Proceed).f)
  {
    hide Under, Chain, Tiled, TopPageOk, PairOk, PlaceBelow, EndOf, CountedIn;
    var o := ReserveStep(m, f, Proceed);
    assert TopPageOk(below, f, m.pages[f.t], f.t, f.t == m.commit);
    ResetPage(m, below, f);
    forall i | 0 <= i < |below|
      ensures FrameOk(below[i], o.m) && PlaceBelow(o.m, below, o.f, i) && PairOk(below[i], o.f, m)
    {
      ResetBelow(m, below, f, i);
    }
    PageStep(m, below, f, f.t, o.m.pages[f.t], o.f);
  }

  lemma BumpBelow(m: Memory, below: seq<Frame>, f: Frame, i: nat)
    requires Tied(m, below, f, i) && f.pc.Bump? && FrameOk(f, m)
    ensures var o := MoveStep(m, f);
      FrameOk(below[i], o.m) && PlaceBelow(o.m, below, o.f, i) && PairOk(below[i], o.f, m)
  {
    BelowKeeps(m, below, f, f.nx, MoveStep(m, f).m.pages[f.nx], i);
  }

  lemma BumpStep(m: Memory, below: seq<Frame>, f: Frame)
    requires TopInv(m, below, f) && f.pc.Bump?
    ensures TopInv(MoveStep(m, f).m, below, MoveStep(m, f).f)
  {
    hide Under, Chain, Tiled, EndOf;
    var o := MoveStep(m, f);
    forall i | 0 <= i < |below|
      ensures FrameOk(below[i], o.m) && PlaceBelow(o.m, below, o.f, i) && PairOk(below[i], o.f, m)
    {
      BumpBelow(m, below, f, i);
    }
    assert Live(m, f.nx) ==> TopPageOk(below, f, m.pages[f.nx], f.nx, f.nx == m.commit);
    PageStep(m, below, f, f.nx, o.m.pages[f.nx], o.f);
  }

  lemma ZeroBelow(m: Memory, below: seq<Frame>, f: Frame, i: nat)
    requires Tied(m, below, f, i) && f.pc.Zero? && FrameOk(f, m)
    requires m.pages[f.nx].upd == f.upd && m.pages[f.nx].write == f.idx
    ensures var o := MoveStep(m, f);
      FrameOk(below[i], o.m) && PlaceBelow(o.m, below, o.f, i) && PairOk(below[i], o.f, m)
  {
    NextIsFree(m, f);
    BelowKeeps(m, below, f, f.nx, MoveStep(m, f).m.pages[f.nx], i);
  }

  lemma {:induction false} ZeroTaken(m: Memory, below: seq<Frame>, f: Frame)
    requires TopInv(m, below, f) && f.pc.Zero?
    requires m.pages[f.nx].upd == f.upd && m.pages[f.nx].write == f.idx
    ensures TopInv(MoveStep(m, f).m, below, MoveStep(m, f).f)
  {
    hide Under, Chain, PlaceBelow, PairOk, TopPageOk, CountedIn;
    var o := MoveStep(m, f);
    NextIsFree(m, f);
    forall i | 0 <= i < |below|
      ensures FrameOk(below[i], o.m) && PlaceBelow(o.m, below, o.f, i) && PairOk(below[i], o.f, m)
    {
      ZeroBelow(m, below, f, i);
    }
    PageStep(m, below, f, f.nx, o.m.pages[f.nx], o.f);
  }

  lemma ZeroStep(m: Memory, below: seq<Frame>, f: Frame)
    requires TopInv(m, below, f) && f.pc.Zero?
    ensures TopInv(MoveStep(m, f).m, below, MoveStep(m, f).f)
  {
    hide Under, Chain, Tiled, TopPageOk, EndOf, CountedIn;
    if m.pages[f.nx].upd == f.upd && m.pages[f.nx].write == f.idx {
      ZeroTaken(m, below, f);
    } else {
      LocalStep(m, below, f, MoveStep(m, f).f);
    }
  }

  lemma ZeroCommitBelow(m: Memory, below: seq<Frame>, f: Frame, i: nat)
    requires Tied(m, below, f, i) && f.pc.ZeroCommit? && FrameOk(f, m)
    requires Live(m, f.nx) ==> m.pages[f.nx].commit == 0
    ensures var o := MoveStep(m, f);
      FrameOk(below[i], o.m) && PlaceBelow(o.m, below, o.f, i) && PairOk(below[i], o.f, m)
  {
    BelowKeeps(m, below, f, f.nx, MoveStep(m, f).m.pages[f.nx], i);
  }

  lemma {:induction false} ZeroCommitPage(m: Memory, below: seq<Frame>, f: Frame)
    requires TopInv(m, below, f) && f.pc.ZeroCommit?
    ensures Live(m, f.nx) ==>
              m.pages[f.nx].commit == 0
              && TopPageOk(below, MoveStep(m, f).f, m.pages[f.nx].(commit := 0), f.nx, f.nx == m.commit)
    ensures f.nx != m.commit
  {
    hide Under, Chain, Tiled, EndOf, PlaceBelow, PairOk;
    assert FrameOk(f, m);
    assert Live(m, f.nx) ==> TopPageOk(below, f, m.pages[f.nx], f.nx, false);
  }

  lemma ZeroCommitStep(m: Memory, below: seq<Frame>, f: Frame)
    requires TopInv(m, below, f) && f.pc.ZeroCommit?
    ensures TopInv(MoveStep(m, f).m, below, MoveStep(m, f).f)
  {
    hide Under, Chain, Tiled, EndOf, PlaceBelow, PairOk, TopPageOk, CountedIn;
    var o := MoveStep(m, f);
    ZeroCommitPage(m, below, f);
    forall i | 0 <= i < |below|
      ensures FrameOk(below[i], o.m) && PlaceBelow(o.m, below, o.f, i) && PairOk(below[i], o.f, m)
    {
      ZeroCommitBelow(m, below, f, i);
    }
    PageStep(m, below, f, f.nx, o.m.pages[f.nx], o.f);
  }

  lemma CutPage(below: seq<Frame>, f: Frame, page: Page, isCommit: bool)
    requires f.pc.Cut? && page.write == f.off + f.len <= PAGE_SIZE && f.len >= MIN_EVENT
    requires Event(f.off, f.len) in page.log && page.commit <= f.off
    requires TopPageOk(below, f, page, f.t, isCommit)
    ensures page.log[|page.log| - 1] == Event(f.off, f.len)
    ensures Under(below, f.t, f.off) == f.off
    ensures TopPageOk(below, f.(pc := End), page.(write := f.off, log := AllButLast(page.log)), f.t, isCommit)
  {
    NothingOver(below, f.t, page.write, page.write);
    NothingOver(below, f.t, page.write, f.off);
    EventInside(page.log, Event(f.off, f.len));
    EndNotNegative(AllButLast(page.log));
  }

  lemma CutBelow(m: Memory, below: seq<Frame>, f: Frame, i: nat)
    requires Tied(m, below, f, i) && f.pc.Cut? && FrameOk(f, m)
    requires m.pages[f.t].upd == f.upd && m.pages[f.t].write == f.off + f.len
    requires TopPageOk(below, f, m.pages[f.t], f.t, f.t == m.commit)
    ensures var o := EventStep(m, f, Proceed);
      FrameOk(below[i], o.m) && PlaceBelow(o.m, below, o.f, i) && PairOk(below[i], o.f, m)
  {
    var o := EventStep(m, f, Proceed);
    var g, page := below[i], m.pages[f.t];
    CutPage(below, f, page, f.t == m.commit);
    if Holding(g.pc) && g.t == f.t { EventInside(page.log, Event(g.off, g.len)); }
    if Moving(g.pc) && m.tail == g.t { NextIsFree(m, g); }
    BelowKeeps(m, below, f, f.t, o.m.pages[f.t], i);
  }

  lemma {:induction false} CutTaken(m: Memory, below: seq<Frame>, f: Frame)
    requires TopInv(m, below, f) && f.pc.Cut?
    requires m.pages[f.t].upd == f.upd && m.pages[f.t].write == f.off + f.len
    ensures TopInv(EventStep(m, f, Proceed).m, below, EventStep(m, f, Proceed).f)
  {
    hide Under, Chain, Tiled, TopPageOk, PlaceBelow, PairOk, EndOf, CountedIn;
    var o := EventStep(m, f, Proceed);
    assert TopPageOk(below, f, m.pages[f.t], f.t, f.t == m.commit);
    CutPage(below, f, m.pages[f.t], f.t == m.commit);
    forall i | 0 <= i < |below|
      ensures FrameOk(below[i], o.m) && PlaceBelow(o.m, below, o.f, i) && PairOk(below[i], o.f, m)
    {
      CutBelow(m, below, f, i);
    }
    PageStep(m, below, f, f.t, o.m.pages[f.t], o.f);
  }

  lemma CutStep(m: Memory, below: seq<Frame>, f: Frame)
    requires TopInv(m, below, f) && f.pc.Cut?
    ensures TopInv(EventStep(m, f, Proceed).m, below, EventStep(m, f, Proceed).f)
  {
    hide Under, Chain, Tiled, TopPageOk, PlaceBelow, EndOf, CountedIn;
    if m.pages[f.t].upd == f.upd && m.pages[f.t].write == f.off + f.len {
      CutTaken(m, below, f);
    } else {
      LocalStep(m, below, f, EventStep(m, f, Proceed).f);
    }
  }

  lemma PublishBelow(m: Memory, below: seq<Frame>, f: Frame, i: nat)
    requires Tied(m, below, f, i) && (f.pc.Set? || f.pc.Store?)
    ensures var o := CommitStep(m, f);
      FrameOk(below[i], o.m) && PlaceBelow(o.m, below, o.f, i) && PairOk(below[i], o.f, m)
  {
    CommitPair(m, below, f, i);
    BelowKeeps(m, below, f, m.commit, CommitStep(m, f).m.pages[m.commit], i);
  }

  /** Set and Store: the commit index of the commit page. */
  lemma PublishStep(m: Memory, below: seq<Frame>, f: Frame)
    requires TopInv(m, below, f) && (f.pc.Set? || f.pc.Store?)
    ensures TopInv(CommitStep(m, f).m, below, CommitStep(m, f).f)
  {
    hide Under, Chain, Tiled, PairOk, PlaceBelow, EndOf, CountedIn;
    var o := CommitStep(m, f);
    CommitPageFacts(m, below, f);
    forall i | 0 <= i < |below|
      ensures FrameOk(below[i], o.m) && PlaceBelow(o.m, below, o.f, i) && PairOk(below[i], o.f, m)
    {
      PublishBelow(m, below, f, i);
    }
    PageStep(m, below, f, m.commit, o.m.pages[m.commit], o.f);
  }

  // ----- Steps that move tail_page or commit_page, call and return ---------------------------------

  lemma TailBelow(m: Memory, below: seq<Frame>, f: Frame, i: nat)
    requires Tied(m, below, f, i) && f.pc.SetTail? && FrameOk(f, m) && m.tail == f.t
    ensures var o := MoveStep(m, f);
      FrameOk(below[i], o.m) && PlaceBelow(o.m, below, o.f, i) && PairOk(below[i], o.f, m)
  {
    AfterTail(m);
  }

  lemma {:induction false} TailPage(m: Memory, below: seq<Frame>, f: Frame, q: nat)
    requires TopInv(m, below, f) && f.pc.SetTail? && m.tail == f.t
    requires q < |m.pages| && Live(MoveStep(m, f).m, q)
    ensures var o := MoveStep(m, f); TopPageOk(below, o.f, o.m.pages[q], q, q == m.commit)
  {
    hide Under, Chain, Tiled, EndOf, PairOk, PlaceBelow, CountedIn;
    assert FrameOk(f, m);
    if q != f.nx {
      LiveBefore(m, f.nx, q);
      assert TopPageOk(below, f, m.pages[q], q, q == m.commit);
    } else {
      forall i | 0 <= i < |below| ensures !(Overflowed(below[i].pc) && below[i].t == f.nx) {
        assert FrameOk(below[i], m);
      }
      NobodyOver(below, f.nx, 0);
      EmptyLog();
    }
  }

  lemma EmptyLog()
    ensures Tiled([]) && EndOf([]) == 0
  {
  }

  lemma {:induction false} TailTaken(m: Memory, below: seq<Frame>, f: Frame)
    requires TopInv(m, below, f) && f.pc.SetTail? && m.tail == f.t
    ensures TopInv(MoveStep(m, f).m, below, MoveStep(m, f).f)
  {
    hide Under, Chain, Tiled, EndOf, TopPageOk, PairOk, PlaceBelow, CountedIn;
    var o := MoveStep(m, f);
    AfterTail(m);
    assert FrameOk(f, m);
    forall i | 0 <= i < |below|
      ensures FrameOk(below[i], o.m) && PlaceBelow(o.m, below, o.f, i) && PairOk(below[i], o.f, o.m)
    {
      TailBelow(m, below, f, i);
      PairStays(below[i], o.f, m, o.m);
    }
    forall q | 0 <= q < |m.pages| && Live(o.m, q) ensures TopPageOk(below, o.f, o.m.pages[q], q, q == m.commit) {
      TailPage(m, below, f, q);
    }
    PairsKept(m, below, f, o.m);
  }

  lemma TailStep(m: Memory, below: seq<Frame>, f: Frame)
    requires TopInv(m, below, f) && f.pc.SetTail?
    ensures TopInv(MoveStep(m, f).m, below, MoveStep(m, f).f)
  {
    hide Under, Chain, Tiled, EndOf, TopPageOk, CountedIn;
    if m.tail == f.t {
      TailTaken(m, below, f);
    } else {
      LocalStep(m, below, f, MoveStep(m, f).f);
    }
  }

  lemma LiveBefore(m: Memory, nx: nat, q: nat)
    requires MemoryShape(m) && nx == Next(|m.pages|, m.tail) && nx != m.commit
    requires q < |m.pages| && q != nx && Live(m.(tail := nx), q)
    ensures Live(m, q)
  {
  }

  lemma PairStays(f: Frame, g: Frame, m: Memory, m': Memory)
    requires PairOk(f, g, m) && m'.commits == m.commits && m'.commit == m.commit
    ensures PairOk(f, g, m')
  {
  }

  lemma PairsKept(m: Memory, below: seq<Frame>, f: Frame, m': Memory)
    requires TopInv(m, below, f) && m'.commits == m.commits && m'.commit == m.commit
    ensures forall i, j | 0 <= i < j < |below| :: PairOk(below[i], below[j], m')
    ensures forall i | 0 <= i < |below| :: PairOk(below[i], f, m')
  {
    forall i, j | 0 <= i < j < |below| ensures PairOk(below[i], below[j], m') {
      assert PairOk(below[i], below[j], m);
    }
  }

  lemma IncBelow(m: Memory, below: seq<Frame>, f: Frame, i: nat)
    requires Tied(m, below, f, i) && f.pc.Inc? && FrameOk(f, m)
    ensures var o := CommitStep(m, f);
      FrameOk(below[i], o.m) && PlaceBelow(o.m, below, o.f, i) && PairOk(below[i], o.f, o.m)
  {
    CommitPair(m, below, f, i);
  }

  /** The commit page has published everything and is left behind. */
  lemma IncStep(m: Memory, below: seq<Frame>, f: Frame)
    requires TopInv(m, below, f) && f.pc.Inc?
    ensures TopInv(CommitStep(m, f).m, below, CommitStep(m, f).f)
  {
    hide Under, Chain, Tiled, EndOf, TopPageOk, PlaceBelow;
    var o := CommitStep(m, f);
    forall i | 0 <= i < |below|
      ensures FrameOk(below[i], o.m) && PlaceBelow(o.m, below, o.f, i) && PairOk(below[i], o.f, o.m)
    {
      IncBelow(m, below, f, i);
    }
    forall q | 0 <= q < |m.pages| && Live(o.m, q)
      ensures TopPageOk(below, o.f, o.m.pages[q], q, q == o.m.commit)
    {
      LiveAhead(m, q);
      IncPage(m, below, f, q);
    }
    forall i, j | 0 <= i < j < |below| ensures PairOk(below[i], below[j], o.m) {
      CommitPair(m, below, f, i);
      CommitPair(m, below, f, j);
      IncPairs(below[i], below[j], m, o.m);
    }
  }

  lemma IncPage(m: Memory, below: seq<Frame>, f: Frame, q: nat)
    requires TopInv(m, below, f) && f.pc.Inc? && q < |m.pages| && Live(m, q) && q != m.commit
    ensures TopPageOk(below, CommitStep(m, f).f, m.pages[q], q, q == Next(|m.pages|, m.commit))
  {
    assert TopPageOk(below, f, m.pages[q], q, false);
  }

  lemma IncPairs(f: Frame, g: Frame, m: Memory, m': Memory)
    requires PairOk(f, g, m) && m'.commits == m.commits && !Counted(f.pc) && !Counted(g.pc)
    ensures PairOk(f, g, m')
  {
  }

  lemma LiveAhead(m: Memory, q: nat)
    requires MemoryShape(m) && m.commit != m.tail
    requires q < |m.pages| && Live(m.(commit := Next(|m.pages|, m.commit)), q)
    ensures Live(m, q) && q != m.commit
  {
  }

  /** A frame returns from rb_end_commit. */
  lemma ReturnStep(m: Memory, below: seq<Frame>, f: Frame)
    requires TopInv(m, below, f) && Ending(f.pc) && EndStep(m, f).Done?
    ensures Inv(State(m, below))
    ensures m.committing == 0 ==> CaughtUp(m)
  {
    hide Under, Chain, Tiled, EndOf;
    assert FrameOk(f, m) && PlaceTop(m, below, f);
    NobodyCounted(below);
    var s := State(m, below);
    forall i | 0 <= i < |below| ensures FrameOk(below[i], m) && PlaceOk(s, i) {
      assert Tied(m, below, f, i);
      PlaceAlone(m, below, f, i);
    }
    forall p | 0 <= p < |m.pages| && Live(m, p) ensures PageOk(below, m.pages[p], p, p == m.commit) {
      assert TopPageOk(below, f, m.pages[p], p, p == m.commit);
    }
  }

  lemma PlaceAlone(m: Memory, below: seq<Frame>, f: Frame, i: nat)
    requires Tied(m, below, f, i) && Ending(f.pc) && Shape(State(m, below))
    ensures PlaceOk(State(m, below), i)
  {
  }

  lemma InterruptStep(s: State, len: nat)
    requires Inv(s) && MIN_EVENT <= len <= PAGE_SIZE
    ensures Inv(State(s.m, s.frames + [NewFrame(len)]))
  {
    var m, below, f := s.m, s.frames, NewFrame(len);
    forall i | 0 <= i < |below|
      ensures FrameOk(below[i], m) && PlaceBelow(m, below, f, i) && PairOk(below[i], f, m)
    {
      assert PlaceOk(s, i);
    }
    forall p | 0 <= p < |m.pages| && Live(m, p) ensures TopPageOk(below, f, m.pages[p], p, p == m.commit) {
      assert PageOk(below, m.pages[p], p, p == m.commit);
    }
    assert TopInv(m, below, f);
    TopGivesInv(m, below, f);
  }

  lemma StepKeepsTopInv(m: Memory, below: seq<Frame>, f: Frame, v: Verdict)
    requires TopInv(m, below, f) && FrameStep(m, f, v).On?
    ensures TopInv(FrameStep(m, f, v).m, below, FrameStep(m, f, v).f)
  {
    hide FrameOk, PairOk, PlaceBelow, TopPageOk;
    match f.pc {
      case Start => StartStep(m, below, f);
      case Count => StartStep(m, below, f);
      case ReadTail => ReserveLocal(m, below, f, v);
      case Add =>
        if m.pages[f.t].write + f.len <= PAGE_SIZE { AddFits(m, below, f); } else { AddOverflows(m, below, f); }
      case Move => ReserveLocal(m, below, f, v);
      case Bump => BumpStep(m, below, f);
      case Check => CheckLocal(m, below, f);
      case Zero => ZeroStep(m, below, f);
      case ZeroCommit => ZeroCommitStep(m, below, f);
      case SetTail => TailStep(m, below, f);
      case Reset => ResetStep(m, below, f);
      case Hold => EventLocal(m, below, f, v);
      case Drop => EventLocal(m, below, f, v);
      case Look => EventLocal(m, below, f, v);
      case Mask => EventLocal(m, below, f, v);
      case Cut => CutStep(m, below, f);
      case Pages => PagesLocal(m, below, f);
      case Publish => PagesLocal(m, below, f);
      case Set => PublishStep(m, below, f);
      case Inc => IncStep(m, below, f);
      case Last => LastLocal(m, below, f);
      case Read => ReadLocal(m, below, f);
      case Store => PublishStep(m, below, f);
      case Again => LastLocal(m, below, f);
      case Leave => LeaveStep(m, below, f);
      case Rejoin => LeaveStep(m, below, f);
      case End => EndLocal(m, below, f);
      case Test => TestLocal(m, below, f);
      case Compare => EndLocal(m, below, f);
      case Retest => EndLocal(m, below, f);
    }
  }

  lemma DoKeepsInv(s: State, a: Action)
    requires Inv(s)
    ensures Inv(Do(s, a))
    ensures |Do(s, a).frames| < |s.frames| && Do(s, a).m.committing == 0 ==> CaughtUp(Do(s, a).m)
  {
    hide TopInv, Inv;
    if Enabled(s, a) {
      match a {
        case Interrupt(len) => InterruptStep(s, len);
        case Step(v) =>
          var below, f := s.frames[..|s.frames| - 1], s.frames[|s.frames| - 1];
          assert s.frames == below + [f];
          InvGivesTop(s.m, below, f);
          if FrameStep(s.m, f, v).On? {
            StepKeepsTopInv(s.m, below, f, v);
            TopGivesInv(FrameStep(s.m, f, v).m, below, FrameStep(s.m, f, v).f);
          } else {
            ReturnStep(s.m, below, f);
          }
      }
    }
  }

  // ----- Every run --------------------------------------------------------------------------------

  ghost function Run(n: nat, acts: seq<Action>): (s: State)
    requires n >= 2
    ensures Inv(s) && |s.m.pages| == n
    decreases |acts|
  {
    if acts == [] then InitInv(n); Init(n)
    else
      var s := Run(n, acts[..|acts| - 1]);
      DoKeepsInv(s, acts[|acts| - 1]);
      StepKeepsShape(s, acts[|acts| - 1]);
      Do(s, acts[|acts| - 1])
  }

  lemma RunOneMore(n: nat, acts: seq<Action>, a: Action)
    requires n >= 2
    ensures Run(n, acts + [a]) == Do(Run(n, acts), a)
  {
    assert (acts + [a])[..|acts|] == acts;
  }

  /** No event can be read before its writer has begun to commit or discard it: it lies at or
      above the commit index of its page.  Events of different writers do not overlap. */
  lemma NothingHalfWrittenIsReadable(n: nat, acts: seq<Action>)
    requires n >= 2
    ensures var s := Run(n, acts);
      && (forall i | 0 <= i < |s.frames| && Holding(s.frames[i].pc) ::
            var f := s.frames[i];
            && Live(s.m, f.t)
            && 0 <= s.m.pages[f.t].commit <= f.off && f.off + f.len <= EndOf(s.m.pages[f.t].log) <= PAGE_SIZE)
      && (forall i, j | 0 <= i < j < |s.frames| && Holding(s.frames[i].pc) && Holding(s.frames[j].pc)
                        && s.frames[i].t == s.frames[j].t ::
            s.frames[i].off + s.frames[i].len <= s.frames[j].off)
  {
    var s := Run(n, acts);
    forall i | 0 <= i < |s.frames| && Holding(s.frames[i].pc)
      ensures var f := s.frames[i];
        && Live(s.m, f.t)
        && 0 <= s.m.pages[f.t].commit <= f.off && f.off + f.len <= EndOf(s.m.pages[f.t].log) <= PAGE_SIZE
    {
      var f := s.frames[i];
      assert FrameOk(f, s.m);
      assert PageOk(s.frames, s.m.pages[f.t], f.t, f.t == s.m.commit);
      EventInside(s.m.pages[f.t].log, Event(f.off, f.len));
    }
    forall i, j | 0 <= i < j < |s.frames| && Holding(s.frames[i].pc) && Holding(s.frames[j].pc)
                  && s.frames[i].t == s.frames[j].t
      ensures s.frames[i].off + s.frames[i].len <= s.frames[j].off
    {
      assert PairOk(s.frames[i], s.frames[j], s.m);
    }
  }

  /** A return from rb_end_commit that leaves `committing` at zero leaves nothing to commit: the
      commit page is the tail page and its commit index is its write index. */
  lemma LastOneOutCatchesUp(n: nat, acts: seq<Action>, a: Action)
    requires n >= 2
    ensures var s, t := Run(n, acts), Run(n, acts + [a]);
      |t.frames| < |s.frames| && t.m.committing == 0 ==> CaughtUp(t.m)
    ensures Run(n, acts).frames == [] ==> Run(n, acts).m.committing == 0 && CaughtUp(Run(n, acts).m)
  {
    RunOneMore(n, acts, a);
    DoKeepsInv(Run(n, acts), a);
  }

  /** When no writer is active every event on the commit page is readable. */
  lemma QuietBufferIsReadable(n: nat, acts: seq<Action>)
    requires n >= 2 && Run(n, acts).frames == []
    ensures var g := Run(n, acts).m.pages[Run(n, acts).m.commit];
      Tiled(g.log) && EndOf(g.log) <= g.commit == g.write <= PAGE_SIZE
  {
    var s := Run(n, acts);
    assert PageOk(s.frames, s.m.pages[s.m.commit], s.m.commit, true);
  }

  /** What one step may do to the events of a page that is in use, before and after it: nothing,
      append the event just reserved, or take back the last event, by the writer that owns it. */
  lemma NoEventIsLost(n: nat, acts: seq<Action>, a: Action, p: nat)
    requires n >= 2 && p < n && Live(Run(n, acts).m, p)
    ensures var s, t := Run(n, acts), Run(n, acts + [a]);
      var log, log' := s.m.pages[p].log, t.m.pages[p].log;
      || log' == log
      || (|t.frames| > 0 && Holding(t.frames[|t.frames| - 1].pc) && t.frames[|t.frames| - 1].t == p
          && log' == log + [Event(t.frames[|t.frames| - 1].off, t.frames[|t.frames| - 1].len)])
      || (|s.frames| > 0 && s.frames[|s.frames| - 1].pc.Cut?
          && log == log' + [Event(s.frames[|s.frames| - 1].off, s.frames[|s.frames| - 1].len)])
  {
    hide TopInv, Run;
    var s := Run(n, acts);
    RunOneMore(n, acts, a);
    if a.Step? && |s.frames| > 0 {
      var below, f := s.frames[..|s.frames| - 1], s.frames[|s.frames| - 1];
      assert s.frames == below + [f];
      InvGivesTop(s.m, below, f);
      StepKeepsEvents(s.m, below, f, a.v, p);
    }
  }

  /** The step leaves the page's events, appends the one reserved, or takes back the last. */
  ghost predicate EventsKept(m: Memory, f: Frame, v: Verdict, p: nat)
    requires MemoryShape(m) && FrameShape(f, |m.pages|) && p < |m.pages|
  {
    FrameStepShape(m, f, v);
    var o := FrameStep(m, f, v);
    var log, log' := m.pages[p].log, o.m.pages[p].log;
    || log' == log
    || (o.On? && Holding(o.f.pc) && o.f.t == p && log' == log + [Event(o.f.off, o.f.len)])
    || (f.pc.Cut? && log == log' + [Event(f.off, f.len)])
  }

  lemma StepKeepsEvents(m: Memory, below: seq<Frame>, f: Frame, v: Verdict, p: nat)
    requires MemoryShape(m) && FrameShape(f, |m.pages|)
    requires TopInv(m, below, f) && p < |m.pages| && Live(m, p)
    ensures EventsKept(m, f, v, p)
  {
    hide Under, Chain, Tiled, TopPageOk, PairOk, PlaceBelow, EndOf, CountedIn, PlaceTop;
    if Moving(f.pc) { MoveKeepsEvents(m, f, p); }
    else if f.pc.Cut? { CutKeepsEvents(m, below, f, p); }
    else if Committer(f.pc) { CommitKeepsEvents(m, f, p); }
  }

  lemma MoveKeepsEvents(m: Memory, f: Frame, p: nat)
    requires MemoryShape(m) && FrameShape(f, |m.pages|) && Moving(f.pc) && FrameOk(f, m) && p < |m.pages| && Live(m, p)
    ensures MoveStep(m, f).m.pages[p].log == m.pages[p].log
  {
    if f.pc.Zero? && m.pages[f.nx].upd == f.upd && m.pages[f.nx].write == f.idx { NextIsFree(m, f); }
  }

  lemma CommitKeepsEvents(m: Memory, f: Frame, p: nat)
    requires MemoryShape(m) && FrameShape(f, |m.pages|) && Committer(f.pc) && p < |m.pages|
    ensures CommitStep(m, f).m.pages[p].log == m.pages[p].log
  {
  }

  lemma CutKeepsEvents(m: Memory, below: seq<Frame>, f: Frame, p: nat)
    requires TopInv(m, below, f) && f.pc.Cut? && p < |m.pages| && Live(m, p)
    ensures var log, log' := m.pages[p].log, EventStep(m, f, Proceed).m.pages[p].log;
            log' == log || log == log' + [Event(f.off, f.len)]
  {
    if f.t == p && m.pages[p].upd == f.upd && m.pages[p].write == f.off + f.len {
      assert TopPageOk(below, f, m.pages[p], p, p == m.commit);
      CutPage(below, f, m.pages[p], p == m.commit);
    }
  }

  /** commit_page moves on only from a page whose events are all readable. */
  lemma CommitPageIsLeftComplete(n: nat, acts: seq<Action>, a: Action)
    requires n >= 2
    ensures var s, t := Run(n, acts), Run(n, acts + [a]);
      t.m.commit != s.m.commit ==>
        var g := s.m.pages[s.m.commit];
        t.m.pages[s.m.commit] == g && EndOf(g.log) <= g.commit == g.write <= PAGE_SIZE
  {
    hide TopInv, Run;
    var s := Run(n, acts);
    RunOneMore(n, acts, a);
    if a.Step? && |s.frames| > 0 {
      var below, f := s.frames[..|s.frames| - 1], s.frames[|s.frames| - 1];
      assert s.frames == below + [f];
      InvGivesTop(s.m, below, f);
      OnlyIncMovesCommit(s.m, f, a.v);
      if f.pc.Inc? { CommitPageFacts(s.m, below, f); }
    }
  }

  lemma OnlyIncMovesCommit(m: Memory, f: Frame, v: Verdict)
    requires MemoryShape(m) && FrameShape(f, |m.pages|)
    ensures FrameStep(m, f, v).m.commit != m.commit ==>
              f.pc.Inc? && FrameStep(m, f, v).m.pages == m.pages
  {
  }
}
