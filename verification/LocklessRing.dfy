/**
 The lockless per-CPU ring of ring_buffer.c: one un-nested writer on its own CPU against one
 reader on another.  The two sides share the `next` links of the pages (a page number plus a
 flag), the `prev` links, and the page pointers of the per-CPU buffer.  Every step below is
 one access to that shared memory, so a run is an arbitrary interleaving of single accesses.
 One step stands for several: the splice at RFound reads two links and stores three words.  No
 writer step changes what it reads, and none sees more of what it stores than the page in one
 link (`SpliceReadsStay`, `SpliceIsOneAccess`).

 Pages are the numbers 0..n: n pages circulate in the ring and one is out of it.
 */
module LocklessRing {

  /** The two low bits of a `next` link. */
  datatype Flag = Normal | Head | Update

  datatype Link = Link(page: nat, flag: Flag)

  /** Where the writer stands in rb_move_tail and rb_handle_head_page. */
  datatype WriterPc =
    | WIdle
    | WNext(np: nat)              // next_page has been read
    | WHead(np: nat)              // rb_is_head_page answered a non-zero value
    | WPrev(np: nat, p: nat)      // rb_is_reader_page(commit_page) has read commit_page->prev
    | WHandle(np: nat)            // about to cmpxchg HEAD to UPDATE
    | WUpdate(np: nat)            // the first cmpxchg succeeded
    | WNewHead(np: nat, nh: nat)  // new_head has been read
    | WMoved(np: nat, nh: nat)    // the second cmpxchg succeeded: HEAD is on the new head
    | WTail(np: nat)              // about to move tail_page
    | WBug                        // one of the branches that warn and give up

  /** Where the reader stands in rb_get_reader_page. */
  datatype ReaderPc =
    | RIdle
    | RSpin                       // at the label `spin`
    | RScan(page: nat, start: nat, laps: nat)  // the loop of rb_set_head_page: the page it looks at,
                                               // the one it began with, and the laps it has done
    | RFound(cand: nat)           // rb_set_head_page returned this page
    | RSpliced(cand: nat)         // the private page points around it
    | RSwapped(cand: nat)         // rb_head_page_replace succeeded
    | RLinked(cand: nat)          // the new head points back to the swapped-in page
    | RAdvanced(cand: nat)        // head_page moved on
    | RBug                        // the sanity check of rb_set_head_page failed
    | RLost                       // rb_set_head_page gave up after three laps and returned NULL

  /** `overwrite` is RB_FL_OVERWRITE.  `split` chooses the grain of rb_is_reader_page: its two
      loads are two steps, or one. */
  datatype Config = Config(overwrite: bool, split: bool)

  datatype State = State(
    cfg: Config,
    next: seq<Link>,
    prev: seq<nat>,
    tail: nat,
    commit: nat,
    headHint: nat,    // head_page
    readerPage: nat,
    pages: nat,       // the `pages` entry pointer
    w: WriterPc,
    r: ReaderPc)

  /** One scheduling decision.  A writer with nothing left to commit may start to move the tail,
      and an idle reader may have consumed its page: `go` says whether it does. */
  datatype Action = Writer(go: bool) | Reader(go: bool)

  predicate WriterShape(w: WriterPc, count: nat) {
    match w
    case WIdle => true
    case WBug => true
    case WNext(np) => np < count
    case WHead(np) => np < count
    case WHandle(np) => np < count
    case WUpdate(np) => np < count
    case WTail(np) => np < count
    case WPrev(np, p) => np < count && p < count
    case WNewHead(np, nh) => np < count && nh < count
    case WMoved(np, nh) => np < count && nh < count
  }

  predicate ReaderShape(r: ReaderPc, count: nat) {
    match r
    case RIdle => true
    case RSpin => true
    case RBug => true
    case RLost => true
    case RScan(p, start, _) => p < count && start < count
    case RFound(c) => c < count
    case RSpliced(c) => c < count
    case RSwapped(c) => c < count
    case RLinked(c) => c < count
    case RAdvanced(c) => c < count
  }

  /** All page numbers are pages of this buffer. */
  predicate Shape(s: State) {
    && |s.next| == |s.prev| >= 3
    && (forall p | 0 <= p < |s.next| :: s.next[p].page < |s.next|)
    && (forall p | 0 <= p < |s.prev| :: s.prev[p] < |s.next|)
    && s.tail < |s.next| && s.commit < |s.next| && s.headHint < |s.next|
    && s.readerPage < |s.next| && s.pages < |s.next|
    && WriterShape(s.w, |s.next|) && ReaderShape(s.r, |s.next|)
  }

  /** rb_head_page_set: cmpxchg at->next from (head, from) to (head, to). */
  function SetFlag(next: seq<Link>, at: nat, head: nat, from: Flag, to: Flag): (next': seq<Link>)
    requires at < |next|
    ensures |next'| == |next|
    ensures forall p | 0 <= p < |next| :: next'[p].page == next[p].page
    ensures forall p | 0 <= p < |next| && p != at :: next'[p] == next[p]
    ensures next'[at].flag == if next[at] == Link(head, from) then to else next[at].flag
  {
    if next[at] == Link(head, from) then next[at := Link(head, to)] else next
  }

  /** What rb_move_tail does once it knows whether commit_page is on the reader page. */
  function AfterReaderTest(s: State, np: nat, onReader: bool): State {
    if !onReader then s.(w := if s.cfg.overwrite then WHandle(np) else WIdle)
    else if s.commit != s.tail && s.commit == s.readerPage then s.(w := WIdle)
    else s.(w := WTail(np))
  }

  /** One step of the writer.  While commit_page trails tail_page the step is one turn of the
      first loop of rb_set_commit_to_write. */
  function WriterStep(s: State, go: bool): State
    requires Shape(s)
  {
    match s.w
    case WIdle =>
      if s.commit != s.tail then s.(commit := s.next[s.commit].page)
      else if go then s.(w := WNext(s.next[s.tail].page))
      else s
    case WNext(np) =>
      if np == s.commit then s.(w := WIdle)
      else if s.next[s.tail].page != np || s.next[s.tail].flag != Normal then s.(w := WHead(np))
      else s.(w := WTail(np))
    case WHead(np) =>
      var p := s.prev[s.commit];
      if s.cfg.split then s.(w := WPrev(np, p))
      else AfterReaderTest(s, np, s.next[p].page != s.commit)
    case WPrev(np, p) =>
      AfterReaderTest(s, np, s.next[p].page != s.commit)
    case WHandle(np) =>
      var w' := if s.next[s.tail].page != np then WIdle
                else match s.next[s.tail].flag
                     case Head => WUpdate(np)
                     case Normal => WIdle
                     case Update => WBug;
      s.(next := SetFlag(s.next, s.tail, np, Head, Update), w := w')
    case WUpdate(np) =>
      s.(w := WNewHead(np, s.next[np].page))
    case WNewHead(np, nh) =>
      var w' := if s.next[np].page != nh || s.next[np].flag == Update then WBug else WMoved(np, nh);
      s.(next := SetFlag(s.next, np, nh, Normal, Head), w := w')
    case WMoved(np, nh) =>
      var w' := if s.next[s.tail] == Link(np, Update) then WTail(np) else WBug;
      s.(next := SetFlag(s.next, s.tail, np, Update, Normal), w := w')
    case WTail(np) =>
      s.(tail := np, w := WIdle)
    case WBug => s
  }

  /** One step of the reader. */
  function ReaderStep(s: State, go: bool): State
    requires Shape(s)
  {
    match s.r
    case RIdle =>
      if !go || s.commit == s.readerPage then s else s.(r := RSpin)
    case RSpin =>
      s.(r := if s.next[s.prev[s.pages]].page == s.pages then RScan(s.headHint, s.headHint, 0) else RBug)
    case RScan(page, start, laps) =>
      var l := s.next[s.prev[page]];
      if l.page != page || l.flag != Normal then s.(headHint := page, r := RFound(page))
      else
        var p := s.next[page].page;
        s.(r := if p != start then RScan(p, start, laps) else if laps < 2 then RScan(p, start, laps + 1) else RLost)
    case RFound(cand) =>
      s.(next := s.next[s.readerPage := Link(s.next[cand].page, Head)],
         prev := s.prev[s.readerPage := s.prev[cand]],
         pages := s.prev[cand],
         r := RSpliced(cand))
    case RSpliced(cand) =>
      var at := s.prev[cand];
      if s.next[at].flag == Head then
        s.(next := s.next[at := Link(s.readerPage, Normal)], r := RSwapped(cand))
      else s.(r := RSpin)
    case RSwapped(cand) =>
      s.(prev := s.prev[s.next[cand].page := s.readerPage], r := RLinked(cand))
    case RLinked(cand) =>
      s.(headHint := s.next[s.headHint].page, r := RAdvanced(cand))
    case RAdvanced(cand) =>
      s.(readerPage := cand, r := RIdle)
    case RBug => s
    case RLost => s
  }

  function Step(s: State, a: Action): State
    requires Shape(s)
  {
    match a
    case Writer(go) => WriterStep(s, go)
    case Reader(go) => ReaderStep(s, go)
  }

  /** The buffer that rb_allocate_cpu_buffer makes: pages 0..n-1 in the ring, page n private. */
  function Init(n: nat, cfg: Config): State
    requires n >= 2
  {
    State(cfg,
          seq(n + 1, (i: nat) => if i == n then Link(n, Normal)
                          else if i == n - 1 then Link(0, Head) else Link(i + 1, Normal)),
          seq(n + 1, (i: nat) => if i == n then n else if i == 0 then n - 1 else i - 1 as nat),
          0, 0, 0, n, 0, WIdle, RIdle)
  }

  /** Setting a flag keeps the links inside the buffer. */
  lemma FlagKeepsShape(s: State, at: nat, head: nat, from: Flag, to: Flag)
    requires Shape(s) && at < |s.next|
    ensures Shape(s.(next := SetFlag(s.next, at, head, from, to)))
  {
    hide SetFlag;
  }

  /** A writer step that sets no flag. */
  lemma LookKeepsShape(s: State, go: bool)
    requires Shape(s) && !s.w.WHandle? && !s.w.WNewHead? && !s.w.WMoved?
    ensures Shape(WriterStep(s, go))
    ensures WriterStep(s, go).next == s.next && WriterStep(s, go).cfg == s.cfg
  {
    hide SetFlag, ReaderShape;
    var t := WriterStep(s, go);
    assert t.prev == s.prev && t.r == s.r;
  }

  lemma WriterKeepsShape(s: State, go: bool)
    requires Shape(s)
    ensures Shape(WriterStep(s, go))
    ensures |WriterStep(s, go).next| == |s.next| && WriterStep(s, go).cfg == s.cfg
  {
    hide SetFlag;
    match s.w {
      case WHandle(np) => FlagKeepsShape(s, s.tail, np, Head, Update);
      case WNewHead(np, nh) => FlagKeepsShape(s, np, nh, Normal, Head);
      case WMoved(np, nh) => FlagKeepsShape(s, s.tail, np, Update, Normal);
      case _ => LookKeepsShape(s, go);
    }
  }

  lemma ReaderKeepsShape(s: State, go: bool)
    requires Shape(s)
    ensures Shape(ReaderStep(s, go))
    ensures |ReaderStep(s, go).next| == |s.next| && ReaderStep(s, go).cfg == s.cfg
  {
  }

  /** The state after a sequence of steps. */
  ghost function Steps(s: State, acts: seq<Action>): (t: State)
    requires Shape(s)
    ensures Shape(t) && |t.next| == |s.next| && t.cfg == s.cfg
    decreases |acts|
  {
    if acts == [] then s
    else
      WriterKeepsShape(s, acts[0].go);
      ReaderKeepsShape(s, acts[0].go);
      Steps(Step(s, acts[0]), acts[1..])
  }

  /** The state after a run from the freshly allocated buffer. */
  ghost function Run(n: nat, cfg: Config, acts: seq<Action>): (s: State)
    requires n >= 2
    ensures Shape(s) && |s.next| == n + 1 && s.cfg == cfg
  {
    Steps(Init(n, cfg), acts)
  }

  lemma {:induction false} StepsCompose(s: State, acts: seq<Action>, more: seq<Action>)
    requires Shape(s)
    ensures Steps(s, acts + more) == Steps(Steps(s, acts), more)
    decreases |acts|
  {
    if acts == [] {
      assert acts + more == more;
    } else {
      assert (acts + more)[0] == acts[0] && (acts + more)[1..] == acts[1..] + more;
      WriterKeepsShape(s, acts[0].go);
      ReaderKeepsShape(s, acts[0].go);
      StepsCompose(Step(s, acts[0]), acts[1..], more);
    }
  }

  /** The page outside the ring: the reader's page, or the one it has just swapped out. */
  function Held(s: State): nat {
    match s.r
    case RSwapped(c) => c
    case RLinked(c) => c
    case RAdvanced(c) => c
    case _ => s.readerPage
  }

  /** With the flags stripped, `ring` lists the pages in the order of the next links: one cycle
      of all pages but the held one. */
  ghost predicate Cycle(next: seq<Link>, held: nat, ring: seq<nat>) {
    && |ring| == |next| - 1 >= 2
    && held < |next|
    && (forall i | 0 <= i < |ring| :: ring[i] < |next| && ring[i] != held)
    && (forall p | 0 <= p < |next| && p != held :: p in ring)
    && (forall i, j | 0 <= i < j < |ring| :: ring[i] != ring[j])
    && (forall i | 0 <= i < |ring| - 1 :: next[ring[i]].page == ring[i + 1])
    && next[ring[|ring| - 1]].page == ring[0]
  }

  /** How far the writer's head push has come: not begun, HEAD taken off, HEAD put back. */
  datatype Phase = Quiet | Updating | Moving

  function PhaseOf(w: WriterPc): Phase {
    if w.WUpdate? || w.WNewHead? then Updating else if w.WMoved? then Moving else Quiet
  }

  /** The flags, for a ring listed from the head or, between the writer's first two cmpxchgs,
      from the page under UPDATE. */
  ghost predicate Flags(next: seq<Link>, held: nat, ring: seq<nat>, phase: Phase, tail: nat)
    requires Cycle(next, held, ring) && tail < |next|
  {
    var last := ring[|ring| - 1];
    && next[last].flag == (if phase.Updating? then Update else Head)
    && (phase.Updating? ==> tail == last)
    && (phase.Moving? ==> tail != last && next[tail].flag == Update)
    && (forall i | 0 <= i < |ring| - 1 && !(phase.Moving? && ring[i] == tail) :: next[ring[i]].flag == Normal)
    && (!(phase.Moving? && held == tail) ==> next[held].flag != Update)
  }

  /** The page whose back link the reader still owes, if any: its back link is still the held page. */
  function Owed(next: seq<Link>, r: ReaderPc): int
    requires ReaderShape(r, |next|)
  {
    if r.RSwapped? then next[r.cand].page else -1
  }

  ghost predicate BackLinks(prev: seq<nat>, held: nat, ring: seq<nat>, owed: int)
    requires |ring| > 0 && forall i | 0 <= i < |ring| :: ring[i] < |prev|
  {
    && (forall i | 0 < i < |ring| ::
         prev[ring[i]] == if ring[i] == owed then held else ring[i - 1])
    && prev[ring[0]] == if ring[0] == owed then held else ring[|ring| - 1]
  }

  /** What the reader's own fields are at each of its steps. */
  ghost predicate ReaderFields(r: ReaderPc, next: seq<Link>, prev: seq<nat>, headHint: nat,
                               readerPage: nat, pages: nat, ring: seq<nat>, overwrite: bool)
    requires |next| == |prev| && ReaderShape(r, |next|) && readerPage < |next|
  {
    && pages in ring
    && (match r
        case RBug => false
        case RIdle => headHint in ring
        case RSpin => headHint in ring
        case RLost => headHint in ring
        case RScan(p, start, _) => headHint in ring && p in ring && start in ring
        case RFound(c) => headHint == c && c in ring
        case RSpliced(c) =>
          && headHint == c && c in ring
          && next[readerPage] == Link(next[c].page, Head)
          && prev[readerPage] == prev[c] && pages == prev[c]
        case RSwapped(c) =>
          && headHint == c && readerPage in ring && next[c].page in ring
          && next[readerPage].page == next[c].page
          && (!overwrite ==> readerPage == ring[|ring| - 1])
        case RLinked(c) => headHint == c && readerPage in ring && next[c].page in ring
        case RAdvanced(c) => headHint in ring && readerPage in ring)
  }

  /** The reader is preparing a swap of its private page. */
  predicate Preparing(r: ReaderPc) {
    r.RSpin? || r.RScan? || r.RFound? || r.RSpliced?
  }

  ghost predicate WriterInv(s: State, ring: seq<nat>)
    requires Shape(s) && |ring| > 1 && Held(s) < |s.next|
  {
    && !s.w.WBug?
    && (Preparing(s.r) ==> s.commit != s.readerPage)
    && (!s.w.WIdle? ==> s.commit == s.tail)
    && (s.commit == Held(s) ==> s.next[Held(s)].page == ring[0] && s.next[Held(s)].flag != Head)
    && (PhaseOf(s.w).Updating? ==> s.w.np == ring[0])
    && (s.w.WNewHead? ==> s.w.nh == ring[1])
    && (s.w.WMoved? ==> s.next[s.tail].page == s.w.np)
    && (s.w.WHandle? || !PhaseOf(s.w).Quiet? ==> s.cfg.overwrite)
    && (s.w.WPrev? ==> s.cfg.split)
  }

  ghost predicate Inv(s: State, ring: seq<nat>) {
    && Shape(s)
    && Cycle(s.next, Held(s), ring)
    && Flags(s.next, Held(s), ring, PhaseOf(s.w), s.tail)
    && BackLinks(s.prev, Held(s), ring, Owed(s.next, s.r))
    && ReaderFields(s.r, s.next, s.prev, s.headHint, s.readerPage, s.pages, ring, s.cfg.overwrite)
    && WriterInv(s, ring)
  }

  lemma InitInv(n: nat, cfg: Config)
    requires n >= 2
    ensures Inv(Init(n, cfg), seq(n, i => i))
  {
    var ring := seq(n, i => i);
    assert ring[0] == 0;
    forall p | 0 <= p < n ensures p in ring { assert ring[p] == p; }
  }

  lemma RotatedHas(ring: seq<nat>, x: nat, p: nat)
    requires |ring| > 0 && (p in ring[1..] || p == x)
    ensures p in ring[1..] + [x]
  {
    if p == x { assert (ring[1..] + [x])[|ring| - 1] == x; }
  }

  lemma TailHas(ring: seq<nat>, p: nat)
    requires p in ring && p != ring[0]
    ensures p in ring[1..]
  {
    var i :| 0 <= i < |ring| && ring[i] == p;
    assert ring[1..][i - 1] == p;
  }

  /** The cycle read from the page after its first, with `x` linked in at the end. */
  lemma Rotate(next: seq<Link>, held: nat, ring: seq<nat>, next': seq<Link>, x: nat, held': nat)
    requires Cycle(next, held, ring)
    requires |next'| == |next| && ((x == ring[0] && held' == held) || (x == held && held' == ring[0]))
    requires next'[x].page == ring[1]
    requires forall i | 0 < i < |ring| - 1 :: next'[ring[i]].page == ring[i + 1]
    requires next'[ring[|ring| - 1]].page == x
    ensures Cycle(next', held', ring[1..] + [x])
  {
    var ring' := ring[1..] + [x];
    forall p | 0 <= p < |next'| && p != held' ensures p in ring' {
      if p != x { TailHas(ring, p); }
      RotatedHas(ring, x, p);
    }
    forall i | 0 <= i < |ring'| - 1 ensures next'[ring'[i]].page == ring'[i + 1] {
      assert ring'[i] == ring[i + 1];
    }
  }

  lemma RotatedMembers(ring: seq<nat>)
    requires |ring| > 0
    ensures forall p :: p in ring <==> p in ring[1..] + [ring[0]]
  {
    assert ring == [ring[0]] + ring[1..];
  }

  lemma RotateBackLinks(prev: seq<nat>, held: nat, ring: seq<nat>, owed: int)
    requires |ring| > 1 && forall i | 0 <= i < |ring| :: ring[i] < |prev|
    requires BackLinks(prev, held, ring, owed)
    ensures BackLinks(prev, held, ring[1..] + [ring[0]], owed)
  {
    var ring' := ring[1..] + [ring[0]];
    assert ring'[0] == ring[1] && ring'[|ring| - 1] == ring[0];
    forall i | 0 < i < |ring'|
      ensures prev[ring'[i]] == if ring'[i] == owed then held else ring'[i - 1]
    {
      assert ring'[i - 1] == ring[i];
      if i + 1 < |ring| { assert ring'[i] == ring[i + 1]; }
    }
    assert BackLinks(prev, held, ring', owed);
  }

  lemma Successor(next: seq<Link>, held: nat, ring: seq<nat>, p: nat) returns (i: nat)
    requires Cycle(next, held, ring) && p in ring
    ensures i < |ring| && ring[i] == p
    ensures next[p].page == ring[if i + 1 == |ring| then 0 else i + 1]
  {
    i :| 0 <= i < |ring| && ring[i] == p;
  }

  lemma Predecessor(s: State, ring: seq<nat>, p: nat) returns (i: nat)
    requires Inv(s, ring) && p in ring
    ensures i < |ring| && ring[i] == p && s.next[s.prev[p]].page == p
    ensures s.prev[p] == if p == Owed(s.next, s.r) then Held(s)
                         else if i == 0 then ring[|ring| - 1] else ring[i - 1]
  {
    i :| 0 <= i < |ring| && ring[i] == p;
    if i > 0 { assert s.next[ring[i - 1]].page == ring[i]; }
  }

  /** One turn of the commit loop. */
  lemma WriterCommits(s: State, ring: seq<nat>, go: bool)
    requires Inv(s, ring) && s.w.WIdle?
    ensures Inv(WriterStep(s, go), ring)
  {
    hide BackLinks, ReaderFields;
    WriterKeepsShape(s, go);
    if s.commit in ring {
      var i := Successor(s.next, Held(s), ring, s.commit);
    }
  }

  /** A writer step that changes its program counter only. */
  lemma WriterMovesOn(s: State, ring: seq<nat>, w': WriterPc)
    requires Inv(s, ring) && !w'.WBug? && WriterShape(w', |s.next|)
    requires PhaseOf(s.w) == PhaseOf(w') && (w'.WMoved? ==> w' == s.w)
    requires !w'.WIdle? ==> s.commit == s.tail
    requires PhaseOf(w').Updating? ==> w'.np == ring[0]
    requires w'.WNewHead? ==> w'.nh == ring[1]
    requires w'.WHandle? ==> s.cfg.overwrite
    requires w'.WPrev? ==> s.cfg.split
    ensures Inv(s.(w := w'), ring)
  {
  }

  /** Steps that leave every link alone. */
  lemma WriterLooks(s: State, ring: seq<nat>, go: bool)
    requires Inv(s, ring)
    requires s.w.WNext? || s.w.WHead? || s.w.WPrev? || s.w.WUpdate?
    ensures Inv(WriterStep(s, go), ring)
  {
    hide BackLinks, ReaderFields;
    var w' := WriterStep(s, go).w;
    assert WriterStep(s, go) == s.(w := w');
    match s.w {
      case WNext(np) => WriterMovesOn(s, ring, w');
      case WHead(np) => WriterMovesOn(s, ring, w');
      case WPrev(np, p) => WriterMovesOn(s, ring, w');
      case WUpdate(np) => WriterMovesOn(s, ring, w');
      case _ =>
    }
  }

  lemma WriterMovesTail(s: State, ring: seq<nat>, go: bool)
    requires Inv(s, ring) && s.w.WTail?
    ensures Inv(WriterStep(s, go), ring)
  {
  }

  lemma WriterFirstCas(s: State, ring: seq<nat>, go: bool)
    requires Inv(s, ring) && s.w.WHandle?
    ensures Inv(WriterStep(s, go), ring)
  {
    hide BackLinks;
    var t := WriterStep(s, go);
    WriterKeepsShape(s, go);
    assert Cycle(t.next, Held(t), ring);
    if s.tail in ring {
      var i := Successor(s.next, Held(s), ring, s.tail);
    }
  }

  lemma {:induction false} SecondCasTaken(s: State, ring: seq<nat>, go: bool)
    requires Inv(s, ring) && s.w.WNewHead?
    ensures WriterStep(s, go) == s.(next := s.next[s.w.np := Link(s.w.nh, Head)], w := WMoved(s.w.np, s.w.nh))
    ensures s.w.np == ring[0] && s.w.nh == ring[1] == s.next[ring[0]].page && s.cfg.overwrite
  {
    hide BackLinks, ReaderFields;
  }

  /** While HEAD is off the tail page is the last of the ring, and its link leads to the old head. */
  lemma {:induction false} TailIsLast(s: State, ring: seq<nat>)
    requires Inv(s, ring) && PhaseOf(s.w).Updating?
    ensures s.commit == s.tail == ring[|ring| - 1] && s.tail != Held(s) && s.tail != ring[0]
    ensures s.next[s.tail].page == ring[0]
  {
    hide BackLinks, ReaderFields;
  }

  lemma {:induction false} SecondCasFlags(s: State, ring: seq<nat>, go: bool)
    requires Inv(s, ring) && s.w.WNewHead? && Shape(WriterStep(s, go))
    requires Cycle(WriterStep(s, go).next, Held(s), ring[1..] + [ring[0]])
    ensures var t := WriterStep(s, go); Flags(t.next, Held(t), ring[1..] + [ring[0]], Moving, t.tail)
  {
    hide BackLinks, ReaderFields;
    var ring' := ring[1..] + [ring[0]];
    assert ring'[|ring| - 2] == ring[|ring| - 1];
  }

  lemma WriterSecondCas(s: State, ring: seq<nat>, go: bool)
    requires Inv(s, ring) && s.w.WNewHead?
    ensures Inv(WriterStep(s, go), ring[1..] + [ring[0]])
  {
    hide BackLinks, Flags;
    var t := WriterStep(s, go);
    var np, nh := s.w.np, s.w.nh;
    var ring' := ring[1..] + [ring[0]];
    SecondCasTaken(s, ring, go);
    TailIsLast(s, ring);
    assert Shape(t) by { WriterKeepsShape(s, go); }
    Rotate(s.next, Held(s), ring, t.next, ring[0], Held(s));
    RotateBackLinks(s.prev, Held(s), ring, Owed(s.next, s.r));
    assert Owed(t.next, t.r) == Owed(s.next, s.r);
    SecondCasFlags(s, ring, go);
    assert ReaderFields(t.r, t.next, t.prev, t.headHint, t.readerPage, t.pages, ring', true) by {
      RotatedMembers(ring);
    }
  }

  lemma WriterThirdCas(s: State, ring: seq<nat>, go: bool)
    requires Inv(s, ring) && s.w.WMoved?
    ensures Inv(WriterStep(s, go), ring)
  {
    var t := WriterStep(s, go);
    WriterKeepsShape(s, go);
    assert Cycle(t.next, Held(t), ring);
  }

  /** A reader step that leaves every link alone. */
  lemma ReaderMovesOn(s: State, ring: seq<nat>, r': ReaderPc, headHint: nat, readerPage: nat)
    requires Inv(s, ring) && ReaderShape(r', |s.next|) && headHint < |s.next| && readerPage < |s.next|
    requires !s.r.RSwapped? && !r'.RSwapped?
    requires Held(s) == Held(s.(r := r', readerPage := readerPage))
    requires ReaderFields(r', s.next, s.prev, headHint, readerPage, s.pages, ring, s.cfg.overwrite)
    requires Preparing(r') ==> s.commit != readerPage
    ensures Inv(s.(r := r', headHint := headHint, readerPage := readerPage), ring)
  {
  }

  lemma ReaderLooks(s: State, ring: seq<nat>, go: bool)
    requires Inv(s, ring) && (s.r.RIdle? || s.r.RSpin? || s.r.RAdvanced? || s.r.RLinked?)
    ensures Inv(ReaderStep(s, go), ring)
  {
    hide BackLinks, Flags;
    var t := ReaderStep(s, go);
    if s.r.RSpin? {
      var i := Predecessor(s, ring, s.pages);
    }
    ReaderMovesOn(s, ring, t.r, t.headHint, t.readerPage);
    assert t == s.(r := t.r, headHint := t.headHint, readerPage := t.readerPage);
  }

  lemma ReaderScans(s: State, ring: seq<nat>, go: bool)
    requires Inv(s, ring) && s.r.RScan?
    ensures Inv(ReaderStep(s, go), ring)
  {
    hide BackLinks, Flags;
    var t := ReaderStep(s, go);
    var i := Predecessor(s, ring, s.r.page);
    var j := Successor(s.next, Held(s), ring, s.r.page);
    ReaderMovesOn(s, ring, t.r, t.headHint, t.readerPage);
    assert t == s.(r := t.r, headHint := t.headHint, readerPage := t.readerPage);
  }

  /** Why the splice may be one step: a writer step in the middle of it does not change the page
      numbers it reads. */
  lemma {:induction false} SpliceReadsStay(s: State, go: bool)
    requires Shape(s) && s.r.RFound?
    ensures var t := WriterStep(s, go);
            t.prev == s.prev && t.pages == s.pages && t.readerPage == s.readerPage && t.r == s.r
            && |t.next| == |s.next| && t.next[s.r.cand].page == s.next[s.r.cand].page
  {
  }

  /** And whether the back link, the `pages` pointer and the flag of the private page's link are
      stored already makes no difference to what the writer does. */
  lemma {:induction false} SpliceIsOneAccess(s: State, ring: seq<nat>, go: bool, flag: Flag, back: nat, entry: nat)
    requires Inv(s, ring) && s.r.RFound? && back < |s.next| && entry < |s.next|
    ensures var mid := s.(next := s.next[s.readerPage := Link(s.next[s.readerPage].page, flag)],
                          prev := s.prev[s.readerPage := back], pages := entry);
            && Shape(mid)
            && var t, u := WriterStep(s, go), WriterStep(mid, go);
               && u.w == t.w && u.tail == t.tail && u.commit == t.commit && |u.next| == |t.next| == |s.next|
               && forall p | 0 <= p < |s.next| && p != s.readerPage :: u.next[p] == t.next[p]
  {
    hide BackLinks, ReaderFields, Flags;
  }

  lemma ReaderSplices(s: State, ring: seq<nat>, go: bool)
    requires Inv(s, ring) && s.r.RFound?
    ensures Inv(ReaderStep(s, go), ring)
  {
    var t := ReaderStep(s, go);
    ReaderKeepsShape(s, go);
    var i := Predecessor(s, ring, s.r.cand);
    assert Cycle(t.next, Held(t), ring);
  }

  /** The reader's cmpxchg succeeds on the head page only. */
  lemma ReaderSwapsHead(s: State, ring: seq<nat>, go: bool)
    requires Inv(s, ring) && Swaps(s)
    ensures s.r.cand == ring[0] && s.prev[s.r.cand] == ring[|ring| - 1]
    ensures s.next[ring[|ring| - 1]] == Link(ring[0], Head)
  {
    var i := Predecessor(s, ring, s.r.cand);
    assert s.next[s.prev[s.r.cand]].flag == Head;
  }

  lemma SwapBackLinks(prev: seq<nat>, held: nat, ring: seq<nat>)
    requires |ring| > 1 && held < |prev| && held !in ring
    requires forall i | 0 <= i < |ring| :: ring[i] < |prev|
    requires forall i, j | 0 <= i < j < |ring| :: ring[i] != ring[j]
    requires BackLinks(prev, held, ring, -1)
    requires prev[held] == ring[|ring| - 1]
    ensures BackLinks(prev, ring[0], ring[1..] + [held], ring[1])
  {
    var ring' := ring[1..] + [held];
    forall i | 0 < i < |ring'|
      ensures prev[ring'[i]] == if ring'[i] == ring[1] then ring[0] else ring'[i - 1]
    {
      assert ring'[i - 1] == ring[i];
      if i + 1 < |ring| { assert ring'[i] == ring[i + 1]; }
    }
  }

  lemma SwapFlags(next: seq<Link>, held: nat, ring: seq<nat>, next': seq<Link>, phase: Phase, tail: nat)
    requires Cycle(next, held, ring) && tail < |next| && Flags(next, held, ring, phase, tail)
    requires next[ring[|ring| - 1]].flag == Head && next[held].flag == Head
    requires next' == next[ring[|ring| - 1] := Link(held, Normal)]
    requires Cycle(next', ring[0], ring[1..] + [held])
    requires phase.Moving? ==> tail != held
    ensures Flags(next', ring[0], ring[1..] + [held], phase, tail)
  {
    var ring' := ring[1..] + [held];
    forall i | 0 <= i < |ring'| - 1 && !(phase.Moving? && ring'[i] == tail)
      ensures next'[ring'[i]].flag == Normal
    {
      assert ring'[i] == ring[i + 1];
    }
  }

  lemma {:induction false} SwappedReader(s: State, ring: seq<nat>, go: bool)
    requires Inv(s, ring) && s.r.RSpliced? && Swaps(s)
    requires s.r.cand == ring[0] && s.prev[s.r.cand] == ring[|ring| - 1]
    ensures var t := ReaderStep(s, go);
            && t == s.(next := s.next[ring[|ring| - 1] := Link(s.readerPage, Normal)], r := RSwapped(ring[0]))
            && |t.next| == |t.prev| && ReaderShape(t.r, |t.next|) && t.readerPage < |t.next|
            && ReaderFields(t.r, t.next, t.prev, t.headHint, t.readerPage, t.pages, ring[1..] + [s.readerPage],
                            t.cfg.overwrite)
  {
    hide BackLinks;
    var ring' := ring[1..] + [s.readerPage];
    var n := |ring|;
    assert s.next[ring[0]].page == ring[1];
    assert ring'[n - 1] == s.readerPage && ring'[n - 2] == ring[n - 1] && ring'[0] == ring[1];
  }

  /** The private page takes over the place of the head, one step before the new head. */
  lemma ReaderSwaps(s: State, ring: seq<nat>, go: bool)
    requires Inv(s, ring) && s.r.RSpliced?
    ensures Inv(ReaderStep(s, go), ReaderRing(s, ring))
  {
    hide BackLinks;
    if Swaps(s) {
      SwapDone(s, ring, go);
    } else {
      ReaderMovesOn(s, ring, RSpin, s.headHint, s.readerPage);
      assert ReaderStep(s, go) == s.(r := RSpin);
    }
  }

  lemma {:induction false} SwapDone(s: State, ring: seq<nat>, go: bool)
    requires Inv(s, ring) && s.r.RSpliced? && Swaps(s)
    ensures Inv(ReaderStep(s, go), ring[1..] + [s.readerPage])
  {
    hide BackLinks, ReaderFields, Flags;
    var t := ReaderStep(s, go);
    var n := |ring|;
    var ring' := ring[1..] + [s.readerPage];
    ReaderSwapsHead(s, ring, go);
    SwappedReader(s, ring, go);
    SplicedLinks(s, ring);
    assert Shape(t) by { ReaderKeepsShape(s, go); }
    Rotate(s.next, Held(s), ring, t.next, s.readerPage, ring[0]);
    SwapBackLinks(s.prev, s.readerPage, ring);
    SwapFlags(s.next, s.readerPage, ring, t.next, PhaseOf(s.w), s.tail);
    SwappedWriter(s, ring, go);
  }

  lemma {:induction false} SwappedWriter(s: State, ring: seq<nat>, go: bool)
    requires Inv(s, ring) && s.r.RSpliced? && Swaps(s)
    requires s.r.cand == ring[0] && s.prev[s.r.cand] == ring[|ring| - 1]
    requires Shape(ReaderStep(s, go))
    ensures Held(ReaderStep(s, go)) < |ReaderStep(s, go).next|
    ensures WriterInv(ReaderStep(s, go), ring[1..] + [s.readerPage])
  {
    hide BackLinks;
    assert (ring[1..] + [s.readerPage])[0] == ring[1];
  }

  lemma SplicedLinks(s: State, ring: seq<nat>)
    requires Inv(s, ring) && s.r.RSpliced? && Swaps(s) && s.r.cand == ring[0] && s.prev[s.r.cand] == ring[|ring| - 1]
    ensures s.next[s.readerPage] == Link(ring[1], Head) && s.prev[s.readerPage] == ring[|ring| - 1]
    ensures s.next[ring[|ring| - 1]].flag == Head && Held(s) == s.readerPage
    ensures PhaseOf(s.w).Moving? ==> s.tail != s.readerPage
  {
  }

  lemma ReaderLinks(s: State, ring: seq<nat>, go: bool)
    requires Inv(s, ring) && s.r.RSwapped?
    ensures Inv(ReaderStep(s, go), ring)
  {
    var t := ReaderStep(s, go);
    ReaderKeepsShape(s, go);
    var i := Successor(s.next, Held(s), ring, s.readerPage);
    assert Cycle(t.next, Held(t), ring);
    assert BackLinks(t.prev, Held(t), ring, Owed(t.next, t.r));
  }

  /** The pages of the ring after a step, again listed from the head. */
  function WriterRing(w: WriterPc, ring: seq<nat>): seq<nat>
    requires |ring| > 0
  {
    if w.WNewHead? then ring[1..] + [ring[0]] else ring
  }

  predicate Swaps(s: State)
    requires Shape(s)
  {
    s.r.RSpliced? && s.next[s.prev[s.r.cand]].flag == Head
  }

  function ReaderRing(s: State, ring: seq<nat>): seq<nat>
    requires Shape(s) && |ring| > 0
  {
    if Swaps(s) then ring[1..] + [s.readerPage] else ring
  }

  function RingAfter(s: State, a: Action, ring: seq<nat>): seq<nat>
    requires Shape(s) && |ring| > 0
  {
    if a.Writer? then WriterRing(s.w, ring) else ReaderRing(s, ring)
  }

  lemma WriterKeepsInv(s: State, ring: seq<nat>, go: bool)
    requires Inv(s, ring)
    ensures Inv(WriterStep(s, go), WriterRing(s.w, ring))
  {
    match s.w {
      case WIdle => WriterCommits(s, ring, go);
      case WHandle(np) => WriterFirstCas(s, ring, go);
      case WNewHead(np, nh) => WriterSecondCas(s, ring, go);
      case WMoved(np, nh) => WriterThirdCas(s, ring, go);
      case WTail(np) => WriterMovesTail(s, ring, go);
      case WNext(np) => WriterLooks(s, ring, go);
      case WHead(np) => WriterLooks(s, ring, go);
      case WPrev(np, p) => WriterLooks(s, ring, go);
      case WUpdate(np) => WriterLooks(s, ring, go);
      case WBug =>
    }
  }

  lemma ReaderKeepsInv(s: State, ring: seq<nat>, go: bool)
    requires Inv(s, ring)
    ensures Inv(ReaderStep(s, go), ReaderRing(s, ring))
  {
    match s.r {
      case RFound(c) => ReaderSplices(s, ring, go);
      case RSpliced(c) => ReaderSwaps(s, ring, go);
      case RSwapped(c) => ReaderLinks(s, ring, go);
      case RBug =>
      case RLost =>
      case RScan(_, _, _) => ReaderScans(s, ring, go);
      case _ => ReaderLooks(s, ring, go);
    }
  }

  lemma StepKeepsInv(s: State, a: Action, ring: seq<nat>)
    requires Inv(s, ring)
    ensures Inv(Step(s, a), RingAfter(s, a, ring))
  {
    if a.Writer? { WriterKeepsInv(s, ring, a.go); } else { ReaderKeepsInv(s, ring, a.go); }
  }

  lemma {:induction false} StepsKeepInv(s: State, acts: seq<Action>, ring: seq<nat>) returns (ring': seq<nat>)
    requires Inv(s, ring)
    ensures Inv(Steps(s, acts), ring')
    ensures Ordered(s, ring) && Sound(s.cfg, |ring|) ==> Ordered(Steps(s, acts), ring')
    decreases |acts|
  {
    if acts == [] {
      ring' := ring;
    } else {
      StepKeepsInv(s, acts[0], ring);
      if Ordered(s, ring) && Sound(s.cfg, |ring|) {
        StepKeepsOrder(s, acts[0], ring);
      }
      ring' := StepsKeepInv(Step(s, acts[0]), acts[1..], RingAfter(s, acts[0], ring));
    }
  }

  lemma FlagOfPage(s: State, ring: seq<nat>, p: nat)
    requires Inv(s, ring) && p < |s.next| && p != Held(s)
    ensures s.next[p].flag ==
      if p == ring[|ring| - 1] then (if PhaseOf(s.w).Updating? then Update else Head)
      else if PhaseOf(s.w).Moving? && p == s.tail then Update else Normal
  {
    var i := Successor(s.next, Held(s), ring, p);
  }

  /** Whatever the interleaving: the next links run through all pages but the held one in a
      single cycle, the writer takes no warning branch and the reader's sanity check holds, exactly
      one link in the ring carries HEAD unless the writer stands between its first two cmpxchgs, and
      UPDATE is on the tail page's link exactly from the first cmpxchg to the third. */
  lemma OneRingOneHead(n: nat, cfg: Config, acts: seq<Action>)
    requires n >= 2
    ensures var s := Run(n, cfg, acts);
      && (exists ring :: |ring| == n && Cycle(s.next, Held(s), ring))
      && !s.w.WBug? && !s.r.RBug?
      && (PhaseOf(s.w).Updating? <==> forall p | 0 <= p <= n && p != Held(s) :: s.next[p].flag != Head)
      && (forall p, q | 0 <= p < q <= n && p != Held(s) && q != Held(s) ::
            !(s.next[p].flag == Head && s.next[q].flag == Head))
      && (forall p | 0 <= p <= n :: s.next[p].flag == Update <==> !PhaseOf(s.w).Quiet? && p == s.tail)
  {
    var s := Run(n, cfg, acts);
    InitInv(n, cfg);
    var ring := StepsKeepInv(Init(n, cfg), acts, seq(n, i => i));
    HeadAndUpdate(s, ring);
  }

  lemma HeadAndUpdate(s: State, ring: seq<nat>)
    requires Inv(s, ring)
    ensures !s.w.WBug? && !s.r.RBug?
    ensures PhaseOf(s.w).Updating? <==> forall p | 0 <= p < |s.next| && p != Held(s) :: s.next[p].flag != Head
    ensures forall p, q | 0 <= p < q < |s.next| && p != Held(s) && q != Held(s) ::
              !(s.next[p].flag == Head && s.next[q].flag == Head)
    ensures forall p | 0 <= p < |s.next| :: s.next[p].flag == Update <==> !PhaseOf(s.w).Quiet? && p == s.tail
  {
    var last := ring[|ring| - 1];
    FlagOfPage(s, ring, last);
    forall p | 0 <= p < |s.next| && p != Held(s)
      ensures s.next[p].flag ==
        if p == last then (if PhaseOf(s.w).Updating? then Update else Head)
        else if PhaseOf(s.w).Moving? && p == s.tail then Update else Normal
    {
      FlagOfPage(s, ring, p);
    }
  }

  /** A reader's cmpxchg changes the held page only if the link before the page it wants carries
      HEAD, and then the page it gets is the one that link leads to. */
  lemma SwapTakesTheHead(n: nat, cfg: Config, acts: seq<Action>, a: Action)
    requires n >= 2
    ensures var s, t := Run(n, cfg, acts), Run(n, cfg, acts + [a]);
      Held(t) != Held(s) ==>
        a.Reader? && s.r.RSpliced? && s.r.cand == Held(t) && s.next[s.prev[Held(t)]] == Link(Held(t), Head)
  {
    var s := Run(n, cfg, acts);
    StepsCompose(Init(n, cfg), acts, [a]);
    assert Steps(s, [a]) == Step(s, a);
    InitInv(n, cfg);
    var ring := StepsKeepInv(Init(n, cfg), acts, seq(n, i => i));
    SwapNeedsHead(s, ring, a);
  }

  lemma SwapNeedsHead(s: State, ring: seq<nat>, a: Action)
    requires Inv(s, ring)
    ensures var t := Step(s, a);
      Held(t) != Held(s) ==>
        a.Reader? && s.r.RSpliced? && s.r.cand == Held(t) && s.next[s.prev[Held(t)]] == Link(Held(t), Head)
  {
    if a.Reader? {
      if Swaps(s) { ReaderSwapsHead(s, ring, a.go); } else { ReaderLooksOnly(s, a.go); }
    }
  }

  // ----- The order of commit page and tail page ----------------------------------------------

  /** The page the reader holds is the tail page only while it is the commit page too, and in the
      ring the commit page is never ahead of the tail page. */
  ghost predicate Behind(held: nat, tail: nat, commit: nat, ring: seq<nat>) {
    && (tail == held ==> commit == held)
    && (forall i, j | 0 <= i < |ring| && 0 <= j < |ring| && ring[i] == commit && ring[j] == tail :: i <= j)
  }

  /** A page that the writer read as the tail page's successor: it still is, or the reader has
      swapped it out, or has put it back one place further on. */
  ghost predicate NearAt(held: nat, ring: seq<nat>, t: nat, np: nat)
    requires t < |ring|
  {
    if t + 1 == |ring| then np == ring[0]
    else if t + 2 == |ring| then np == ring[t + 1] || np == held
    else np == ring[t + 1] || np == ring[t + 2]
  }

  ghost predicate Near(held: nat, tail: nat, ring: seq<nat>, np: nat)
    requires |ring| >= 2
  {
    && (tail == held ==> np == ring[0] || np == ring[1])
    && (forall t | 0 <= t < |ring| && ring[t] == tail :: NearAt(held, ring, t, np))
  }

  /** `np` comes after the tail page. */
  ghost predicate Ahead(tail: nat, ring: seq<nat>, np: nat) {
    && np in ring
    && (forall i, j | 0 <= i < |ring| && 0 <= j < |ring| && ring[i] == tail && ring[j] == np :: i < j)
  }

  ghost predicate OrderFacts(next: seq<Link>, w: WriterPc, tail: nat, commit: nat, held: nat, ring: seq<nat>)
    requires |ring| >= 2 && WriterShape(w, |next|)
  {
    && Behind(held, tail, commit, ring)
    && (w.WNext? || w.WHead? || w.WPrev? ==> Near(held, tail, ring, w.np))
    && (w.WTail? ==> Ahead(tail, ring, w.np))
    && (w.WPrev? && tail != held ==>
         if w.p == held then tail == ring[0] else next[w.p].page == tail)
  }

  ghost predicate Ordered(s: State, ring: seq<nat>)
    requires |ring| >= 2 && WriterShape(s.w, |s.next|)
  {
    OrderFacts(s.next, s.w, s.tail, s.commit, Held(s), ring)
  }

  ghost predicate Order(s: State, ring: seq<nat>) {
    Inv(s, ring) && Ordered(s, ring)
  }

  /** The configurations in which the writer cannot be misled about the reader page. */
  predicate Sound(cfg: Config, n: nat) {
    !cfg.split || (!cfg.overwrite && n >= 3)
  }

  lemma CommitKeepsOrder(s: State, ring: seq<nat>, go: bool)
    requires Order(s, ring) && s.w.WIdle?
    ensures Ordered(WriterStep(s, go), ring)
  {
    if s.commit in ring { var i := Successor(s.next, Held(s), ring, s.commit); }
    if s.tail in ring { var i := Successor(s.next, Held(s), ring, s.tail); }
  }

  lemma NextKeepsOrder(s: State, ring: seq<nat>, go: bool)
    requires Order(s, ring) && s.w.WNext?
    ensures Ordered(WriterStep(s, go), ring)
  {
    hide BackLinks, ReaderFields;
    if s.tail in ring { var i := Successor(s.next, Held(s), ring, s.tail); }
  }

  /** rb_is_reader_page answers yes only if the writer may skip the head push. */
  lemma TestKeepsOrder(s: State, ring: seq<nat>, np: nat, onReader: bool)
    requires Order(s, ring) && np < |s.next| && s.commit == s.tail && Near(Held(s), s.tail, ring, np)
    requires onReader && s.tail != Held(s) ==> |ring| >= 3 && s.tail == ring[0]
    ensures Ordered(AfterReaderTest(s, np, onReader), ring)
  {
    if s.tail != Held(s) && onReader {
      assert NearAt(Held(s), ring, 0, np);
    }
  }

  lemma HeadKeepsOrder(s: State, ring: seq<nat>, go: bool)
    requires Order(s, ring) && Sound(s.cfg, |ring|) && s.w.WHead?
    ensures Ordered(WriterStep(s, go), ring)
  {
    if s.tail != Held(s) {
      assert s.tail in ring;
      var i := Predecessor(s, ring, s.tail);
      if s.r.RSwapped? { var j := Successor(s.next, Held(s), ring, s.readerPage); }
    }
    if !s.cfg.split {
      TestKeepsOrder(s, ring, s.w.np, s.next[s.prev[s.commit]].page != s.commit);
    }
  }

  lemma PrevKeepsOrder(s: State, ring: seq<nat>, go: bool)
    requires Order(s, ring) && Sound(s.cfg, |ring|) && s.w.WPrev?
    ensures Ordered(WriterStep(s, go), ring)
  {
    TestKeepsOrder(s, ring, s.w.np, s.next[s.w.p].page != s.commit);
  }

  lemma MovedKeepsOrder(s: State, ring: seq<nat>, go: bool)
    requires Order(s, ring) && s.w.WMoved?
    ensures Ordered(WriterStep(s, go), ring)
  {
    if s.tail in ring { var i := Successor(s.next, Held(s), ring, s.tail); }
  }

  lemma OthersKeepOrder(s: State, ring: seq<nat>, go: bool)
    requires Order(s, ring) && (s.w.WHandle? || s.w.WUpdate? || s.w.WTail?)
    ensures Ordered(WriterStep(s, go), ring)
  {
  }

  lemma RotateKeepsOrder(s: State, ring: seq<nat>, go: bool)
    requires Order(s, ring) && s.w.WNewHead?
    ensures Ordered(WriterStep(s, go), ring[1..] + [ring[0]])
  {
    var ring' := ring[1..] + [ring[0]];
    assert forall i | 0 <= i < |ring| - 1 :: ring'[i] == ring[i + 1];
    assert s.commit == s.tail == ring[|ring| - 1];
  }

  lemma WriterKeepsOrder(s: State, ring: seq<nat>, go: bool)
    requires Order(s, ring) && Sound(s.cfg, |ring|)
    ensures Ordered(WriterStep(s, go), WriterRing(s.w, ring))
  {
    match s.w {
      case WIdle => CommitKeepsOrder(s, ring, go);
      case WNext(np) => NextKeepsOrder(s, ring, go);
      case WHead(np) => HeadKeepsOrder(s, ring, go);
      case WPrev(np, p) => PrevKeepsOrder(s, ring, go);
      case WMoved(np, nh) => MovedKeepsOrder(s, ring, go);
      case WNewHead(np, nh) => RotateKeepsOrder(s, ring, go);
      case WHandle(np) => OthersKeepOrder(s, ring, go);
      case WUpdate(np) => OthersKeepOrder(s, ring, go);
      case WTail(np) => OthersKeepOrder(s, ring, go);
      case WBug =>
    }
  }

  lemma SwapKeepsOrder(s: State, ring: seq<nat>)
    requires Order(s, ring) && Swaps(s) && s.r.cand == ring[0] && s.prev[s.r.cand] == ring[|ring| - 1]
    requires s.w.WPrev? ==> |ring| >= 3
    ensures OrderFacts(s.next[ring[|ring| - 1] := Link(s.readerPage, Normal)], s.w, s.tail, s.commit,
                       ring[0], ring[1..] + [s.readerPage])
  {
    hide BackLinks, Flags, ReaderFields;
    var ring' := ring[1..] + [s.readerPage];
    var n := |ring|;
    assert s.commit in ring;
    assert s.tail in ring;
    assert forall i | 0 <= i < n - 1 :: ring'[i] == ring[i + 1];
    assert ring'[n - 1] == s.readerPage;
    if s.w.WTail? {
      assert s.w.np != ring[0];
      TailHas(ring, s.w.np);
      RotatedHas(ring, s.readerPage, s.w.np);
    }
  }

  lemma ReaderKeepsOrder(s: State, ring: seq<nat>, go: bool)
    requires Order(s, ring) && Sound(s.cfg, |ring|)
    ensures Ordered(ReaderStep(s, go), ReaderRing(s, ring))
  {
    if Swaps(s) {
      ReaderSwapsHead(s, ring, go);
      SwapKeepsOrder(s, ring);
    } else {
      ReaderLooksOnly(s, go);
    }
  }

  lemma ReaderLooksOnly(s: State, go: bool)
    requires Shape(s) && !Swaps(s)
    ensures var t := ReaderStep(s, go);
            t.w == s.w && t.tail == s.tail && t.commit == s.commit && Held(t) == Held(s)
            && |t.next| == |s.next|
            && forall p | 0 <= p < |s.next| && p != s.readerPage :: t.next[p] == s.next[p]
  {
  }

  lemma StepKeepsOrder(s: State, a: Action, ring: seq<nat>)
    requires Order(s, ring) && Sound(s.cfg, |ring|)
    ensures Shape(Step(s, a)) && |RingAfter(s, a, ring)| == |ring|
    ensures Ordered(Step(s, a), RingAfter(s, a, ring))
  {
    StepKeepsInv(s, a, ring);
    if a.Writer? { WriterKeepsOrder(s, ring, a.go); } else { ReaderKeepsOrder(s, ring, a.go); }
  }

  /** The reader's private page is not one the writer still fills, unless the reader was given
      the page that is being committed. */
  predicate PrivatePageIsQuiet(s: State) {
    s.tail == Held(s) ==> s.commit == Held(s)
  }

  /** In a sound configuration the writer never runs ahead of the reader. */
  lemma ReaderPageIsQuiet(n: nat, cfg: Config, acts: seq<Action>)
    requires n >= 2 && Sound(cfg, n)
    ensures PrivatePageIsQuiet(Run(n, cfg, acts))
    ensures exists ring :: Cycle(Run(n, cfg, acts).next, Held(Run(n, cfg, acts)), ring) &&
              Behind(Held(Run(n, cfg, acts)), Run(n, cfg, acts).tail, Run(n, cfg, acts).commit, ring)
  {
    var ring := seq(n, i => i);
    InitInv(n, cfg);
    assert Ordered(Init(n, cfg), ring);
    ring := StepsKeepInv(Init(n, cfg), acts, ring);
  }

  // ----- The two loads of rb_is_reader_page --------------------------------------------------

  ghost predicate Reaches(s: State, t: State)
    requires Shape(s)
  {
    exists acts :: Steps(s, acts) == t
  }

  lemma ReachesSteps(s: State, t: State, acts: seq<Action>, u: State)
    requires Shape(s) && Reaches(s, t) && Shape(t) && Steps(t, acts) == u
    ensures Reaches(s, u)
  {
    var before :| Steps(s, before) == t;
    StepsCompose(s, before, acts);
  }

  /** Four steps in a row. */
  lemma Four(s: State, a: Action, t1: State, b: Action, t2: State, c: Action, t3: State, d: Action, t4: State)
    requires Shape(s) && Step(s, a) == t1
    requires Shape(t1) && Step(t1, b) == t2
    requires Shape(t2) && Step(t2, c) == t3
    requires Shape(t3) && Step(t3, d) == t4
    ensures Steps(s, [a, b, c, d]) == t4
  {
    assert [a, b, c, d][1..] == [b, c, d] && [b, c, d][1..] == [c, d] && [c, d][1..] == [d];
    assert Steps(t3, [d]) == t4;
    assert Steps(t2, [c, d]) == t4;
    assert Steps(t1, [b, c, d]) == t4;
  }

  /** The reader stopped right after its first swap; the writer has filled pages up to `k`. */
  function Lapping(n: nat, cfg: Config, k: nat): State
    requires n >= 3 && 1 <= k <= n
  {
    State(cfg,
          seq(n + 1, (i: nat) => if i == n then Link(1, Head) else Link(i + 1, Normal)),
          seq(n + 1, (i: nat) => if i == 0 || i == n then (n - 1) as nat else i - 1 as nat),
          k, k, 0, n, n - 1, WIdle, RSwapped(0))
  }

  /** The reader about to swap page 0 for the first time. */
  function FirstSplice(n: nat, cfg: Config): State
    requires n >= 3
  {
    var s := Init(n, cfg);
    s.(next := s.next[n := Link(1, Head)], prev := s.prev[n := n - 1], pages := n - 1, r := RSpliced(0))
  }

  lemma FirstSpliceReached(n: nat, cfg: Config)
    requires n >= 3
    ensures Reaches(Init(n, cfg), FirstSplice(n, cfg))
  {
    var r := Reader(true);
    var s := Init(n, cfg);
    Four(s, r, s.(r := RSpin), r, s.(r := RScan(0, 0, 0)), r, s.(r := RFound(0)), r, FirstSplice(n, cfg));
    assert Steps(s, []) == s;
    ReachesSteps(s, s, [r, r, r, r], FirstSplice(n, cfg));
  }

  lemma FirstSwap(n: nat, cfg: Config)
    requires n >= 3
    ensures Reaches(Init(n, cfg), Lapping(n, cfg, 1))
  {
    FirstSpliceReached(n, cfg);
    var r, w := Reader(true), Writer(true);
    var s := FirstSplice(n, cfg);
    var u := Lapping(n, cfg, 1);
    var t := u.(tail := 0, commit := 0);
    assert t.next == s.next[n - 1 := Link(n, Normal)] && t.prev == s.prev;
    Four(s, r, t, w, t.(w := WNext(1)), w, t.(w := WTail(1)), w, t.(tail := 1));
    ReachesSteps(Init(n, cfg), s, [r, w, w, w], t.(tail := 1));
    assert Steps(t.(tail := 1), [w]) == u;
    ReachesSteps(Init(n, cfg), t.(tail := 1), [w], u);
  }

  lemma {:induction false} Lap(n: nat, cfg: Config, k: nat)
    requires n >= 3 && 1 <= k <= n
    ensures Reaches(Init(n, cfg), Lapping(n, cfg, k))
  {
    hide Steps;
    if k == 1 {
      FirstSwap(n, cfg);
    } else {
      Lap(n, cfg, k - 1);
      var w := Writer(true);
      var s := Lapping(n, cfg, k - 1);
      var t := s.(tail := k);
      Four(s, w, s.(w := WNext(k)), w, s.(w := WTail(k)), w, t, w, t.(commit := k));
      ReachesSteps(Init(n, cfg), s, [w, w, w, w], Lapping(n, cfg, k));
    }
  }

  /** The writer pushes the head once around; page 1 is the tail page, and its back link is still
      the one from before the first swap. */
  function Pushed(n: nat, cfg: Config): State
    requires n >= 3
  {
    var s := Lapping(n, cfg, n);
    s.(next := s.next[n := Link(1, Normal)][1 := Link(2, Head)], tail := 1, commit := 1)
  }

  lemma PushBegins(n: nat, cfg: Config)
    requires n >= 3 && cfg.split && cfg.overwrite
    ensures Reaches(Init(n, cfg), Lapping(n, cfg, n).(w := WHandle(1)))
  {
    Lap(n, cfg, n);
    var w := Writer(true);
    var s := Lapping(n, cfg, n);
    Four(s, w, s.(w := WNext(1)), w, s.(w := WHead(1)), w, s.(w := WPrev(1, n - 1)), w, s.(w := WHandle(1)));
    ReachesSteps(Init(n, cfg), s, [w, w, w, w], s.(w := WHandle(1)));
  }

  lemma PushEnds(n: nat, cfg: Config)
    requires n >= 3 && cfg.split && cfg.overwrite
    ensures Reaches(Init(n, cfg), Pushed(n, cfg).(tail := n, commit := n, w := WTail(1)))
  {
    PushBegins(n, cfg);
    var w := Writer(true);
    var s := Lapping(n, cfg, n);
    var t := s.(next := s.next[n := Link(1, Update)]);
    var u := t.(next := t.next[1 := Link(2, Head)], w := WMoved(1, 2));
    var v := Pushed(n, cfg).(tail := n, commit := n, w := WTail(1));
    assert v.next == u.next[n := Link(1, Normal)];
    Four(s.(w := WHandle(1)), w, t.(w := WUpdate(1)), w, t.(w := WNewHead(1, 2)), w, u, w, v);
    ReachesSteps(Init(n, cfg), s.(w := WHandle(1)), [w, w, w, w], v);
  }

  lemma Push(n: nat, cfg: Config)
    requires n >= 3 && cfg.split && cfg.overwrite
    ensures Reaches(Init(n, cfg), Pushed(n, cfg).(w := WHead(2)))
  {
    PushEnds(n, cfg);
    var w := Writer(true);
    var p := Pushed(n, cfg);
    var v := p.(tail := n, commit := n, w := WTail(1));
    Four(v, w, p.(commit := n), w, p, w, p.(w := WNext(2)), w, p.(w := WHead(2)));
    ReachesSteps(Init(n, cfg), v, [w, w, w, w], p.(w := WHead(2)));
  }

  /** The writer has done the first of its two loads; the reader consumes a page and goes on. */
  function Between(n: nat, cfg: Config): State
    requires n >= 3
  {
    var p := Pushed(n, cfg);
    p.(prev := p.prev[1 := n], w := WPrev(2, 0), headHint := 1, readerPage := 0, r := RIdle)
  }

  lemma BetweenTheLoads(n: nat, cfg: Config)
    requires n >= 3 && cfg.split && cfg.overwrite
    ensures Reaches(Init(n, cfg), Between(n, cfg))
  {
    Push(n, cfg);
    var w, r := Writer(true), Reader(true);
    var p, q := Pushed(n, cfg), Between(n, cfg);
    Four(p.(w := WHead(2)), w, p.(w := WPrev(2, 0)),
         r, q.(headHint := 0, readerPage := n, r := RLinked(0)),
         r, q.(readerPage := n, r := RAdvanced(0)), r, q);
    ReachesSteps(Init(n, cfg), p.(w := WHead(2)), [w, r, r, r], q);
  }

  lemma NextHeadFound(n: nat, cfg: Config)
    requires n >= 3 && cfg.split && cfg.overwrite
    ensures Reaches(Init(n, cfg), Between(n, cfg).(headHint := 2, r := RFound(2)))
  {
    BetweenTheLoads(n, cfg);
    var r := Reader(true);
    var q := Between(n, cfg);
    var t := q.(headHint := 2, r := RFound(2));
    Four(q, r, q.(r := RSpin), r, q.(r := RScan(1, 1, 0)), r, q.(r := RScan(2, 1, 0)), r, t);
    ReachesSteps(Init(n, cfg), q, [r, r, r, r], t);
  }

  /** The reader consumes a whole page between the writer's two loads. */
  lemma MisledWriter(n: nat, cfg: Config) returns (t: State)
    requires n >= 3 && cfg.split && cfg.overwrite
    ensures Reaches(Init(n, cfg), t) && !PrivatePageIsQuiet(t)
  {
    NextHeadFound(n, cfg);
    var w, r := Writer(true), Reader(true);
    var s := Between(n, cfg).(headHint := 2, r := RFound(2));
    var a := s.(next := s.next[0 := Link(3, Head)], prev := s.prev[0 := 1], pages := 1, r := RSpliced(2));
    var b := a.(tail := 2, w := WIdle);
    t := b.(next := b.next[1 := Link(0, Normal)], r := RSwapped(2));
    Four(s, r, a, w, a.(w := WTail(2)), w, b, r, t);
    ReachesSteps(Init(n, cfg), s, [r, w, w, r], t);
  }

  // With two pages the same happens without a lap; the states on the way are spelled out.

  function TwoPages(cfg: Config, next: seq<Link>, prev: seq<nat>): State {
    State(cfg, next, prev, 1, 1, 0, 2, 0, WIdle, RIdle)
  }

  lemma TwoPagesFilled(cfg: Config)
    ensures Reaches(Init(2, cfg), TwoPages(cfg, [Link(1, Normal), Link(0, Head), Link(2, Normal)], [1, 0, 2]))
  {
    var w := Writer(true);
    var i, a := Init(2, cfg), TwoPages(cfg, [Link(1, Normal), Link(0, Head), Link(2, Normal)], [1, 0, 2]);
    assert i.next == a.next && i.prev == a.prev;
    Four(i, w, i.(w := WNext(1)), w, i.(w := WTail(1)), w, i.(tail := 1), w, a);
    assert Steps(i, []) == i;
    ReachesSteps(i, i, [w, w, w, w], a);
  }

  lemma TwoPagesBetween(cfg: Config)
    requires cfg.split
    ensures Reaches(Init(2, cfg), TwoPages(cfg, [Link(1, Normal), Link(0, Head), Link(2, Normal)], [1, 0, 2])
                                  .(w := WPrev(0, 0), r := RSpin))
  {
    TwoPagesFilled(cfg);
    var w, r := Writer(true), Reader(true);
    var a := TwoPages(cfg, [Link(1, Normal), Link(0, Head), Link(2, Normal)], [1, 0, 2]);
    var b := a.(w := WPrev(0, 0));
    Four(a, w, a.(w := WNext(0)), w, a.(w := WHead(0)), w, b, r, b.(r := RSpin));
    ReachesSteps(Init(2, cfg), a, [w, w, w, r], b.(r := RSpin));
  }

  lemma TwoPagesSwapped(cfg: Config)
    requires cfg.split
    ensures Reaches(Init(2, cfg), TwoPages(cfg, [Link(1, Normal), Link(2, Normal), Link(1, Head)], [1, 0, 1])
                                  .(pages := 1, w := WPrev(0, 0), r := RSwapped(0)))
  {
    TwoPagesBetween(cfg);
    var r := Reader(true);
    var b := TwoPages(cfg, [Link(1, Normal), Link(0, Head), Link(2, Normal)], [1, 0, 2]).(w := WPrev(0, 0));
    var c := b.(next := [Link(1, Normal), Link(0, Head), Link(1, Head)], prev := [1, 0, 1], pages := 1, r := RSpliced(0));
    var d := c.(next := [Link(1, Normal), Link(2, Normal), Link(1, Head)], r := RSwapped(0));
    Four(b.(r := RSpin), r, b.(r := RScan(0, 0, 0)), r, b.(r := RFound(0)), r, c, r, d);
    ReachesSteps(Init(2, cfg), b.(r := RSpin), [r, r, r, r], d);
  }

  lemma TwoPagesAgain(cfg: Config)
    requires cfg.split
    ensures Reaches(Init(2, cfg), TwoPages(cfg, [Link(1, Normal), Link(2, Normal), Link(1, Head)], [1, 2, 1])
                                  .(headHint := 1, readerPage := 0, pages := 1, w := WPrev(0, 0), r := RSpin))
  {
    TwoPagesSwapped(cfg);
    var r := Reader(true);
    var d := TwoPages(cfg, [Link(1, Normal), Link(2, Normal), Link(1, Head)], [1, 0, 1])
             .(pages := 1, w := WPrev(0, 0), r := RSwapped(0));
    var e := d.(prev := [1, 2, 1], r := RLinked(0));
    var f := e.(headHint := 1, r := RAdvanced(0));
    var g := f.(readerPage := 0, r := RIdle);
    Four(d, r, e, r, f, r, g, r, g.(r := RSpin));
    ReachesSteps(Init(2, cfg), d, [r, r, r, r], g.(r := RSpin));
  }

  lemma MisledWithTwoPages(cfg: Config) returns (t: State)
    requires cfg.split
    ensures Reaches(Init(2, cfg), t) && !PrivatePageIsQuiet(t)
  {
    TwoPagesAgain(cfg);
    var w, r := Writer(true), Reader(true);
    var g := TwoPages(cfg, [Link(1, Normal), Link(2, Normal), Link(1, Head)], [1, 2, 1])
             .(headHint := 1, readerPage := 0, pages := 1, w := WPrev(0, 0), r := RSpin);
    var h := g.(next := [Link(2, Head), Link(2, Normal), Link(1, Head)], prev := [2, 2, 1], pages := 2, r := RSpliced(1));
    Four(g, r, g.(r := RScan(1, 1, 0)), r, g.(r := RFound(1)), r, h, w, h.(w := WTail(0)));
    ReachesSteps(Init(2, cfg), g, [r, r, r, w], h.(w := WTail(0)));
    t := h.(tail := 0, w := WIdle);
    assert Steps(h.(w := WTail(0)), [w]) == t;
    ReachesSteps(Init(2, cfg), h.(w := WTail(0)), [w], t);
  }

  /** Exactly when the writer can never be misled: the test for the reader page reads both words
      at once, or the buffer has at least three pages and never overwrites. */
  lemma QuietExactlyWhenSound(n: nat, cfg: Config)
    requires n >= 2
    ensures Sound(cfg, n) <==> forall acts :: PrivatePageIsQuiet(Run(n, cfg, acts))
  {
    if Sound(cfg, n) {
      forall acts ensures PrivatePageIsQuiet(Run(n, cfg, acts)) { ReaderPageIsQuiet(n, cfg, acts); }
    } else {
      var t;
      if n == 2 { t := MisledWithTwoPages(cfg); } else { t := MisledWriter(n, cfg); }
      var acts :| Steps(Init(n, cfg), acts) == t;
      assert Run(n, cfg, acts) == t;
    }
  }
}
