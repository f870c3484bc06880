/**
 The scan of rb_set_head_page for the head page.  The writer can move HEAD while the reader looks for it;
 after three laps without finding it the reader gives up with NULL, which its caller does not expect.
 */
module LocklessScan {
  import opened LocklessRing

  // ----- without overwriting the scan finds the head -----

  /** The scan is in its first lap and has not passed the head: the pages from the one it began with to
      the one it looks at come in the order of the ring, or it looks at the head. */
  ghost predicate Finding(r: ReaderPc, ring: seq<nat>) {
    match r
    case RLost => false
    case RScan(page, start, laps) =>
      && laps == 0
      && (forall i, j | 0 <= i < |ring| && 0 <= j < |ring| && ring[i] == start && ring[j] == page :: j == 0 || 0 < i <= j)
    case _ => true
  }

  /** The head page's link carries HEAD as long as the writer does not push it. */
  lemma HeadMarked(s: State, ring: seq<nat>, j: nat)
    requires Inv(s, ring) && s.r.RScan? && j < |ring| && ring[j] == s.r.page
    ensures PhaseOf(s.w).Quiet? && j == 0 ==> s.next[s.prev[s.r.page]] == Link(s.r.page, Head)
    ensures s.next[s.prev[s.r.page]].page == s.r.page
    ensures s.next[s.r.page].page == ring[if j + 1 == |ring| then 0 else j + 1]
  {
    var i := Predecessor(s, ring, s.r.page);
    var k := Successor(s.next, Held(s), ring, s.r.page);
  }

  lemma {:induction false} ScanFinds(s: State, ring: seq<nat>, go: bool)
    requires Inv(s, ring) && !s.cfg.overwrite && s.r.RScan? && Finding(s.r, ring)
    ensures Finding(ReaderStep(s, go).r, ring)
  {
    var page, start := s.r.page, s.r.start;
    assert page in ring && start in ring;
    var i :| 0 <= i < |ring| && ring[i] == start;
    var j :| 0 <= j < |ring| && ring[j] == page;
    HeadMarked(s, ring, j);
    hide Flags, BackLinks;
    if j > 0 {
      assert 0 < i <= j;
    }
  }

  lemma {:induction false} StepFinds(s: State, a: Action, ring: seq<nat>)
    requires Inv(s, ring) && !s.cfg.overwrite && Finding(s.r, ring)
    ensures Finding(Step(s, a).r, RingAfter(s, a, ring))
  {
    if a.Writer? {
      assert WriterRing(s.w, ring) == ring;
      assert WriterStep(s, a.go).r == s.r;
    } else if s.r.RScan? {
      ScanFinds(s, ring, a.go);
    } else if s.r.RSpin? {
      OnePlace(s, ring);
    }
  }

  lemma OnePlace(s: State, ring: seq<nat>)
    requires Inv(s, ring)
    ensures forall i, j | 0 <= i < |ring| && 0 <= j < |ring| && ring[i] == ring[j] :: i == j
  {
  }

  lemma {:induction false} StepsFind(s: State, acts: seq<Action>, ring: seq<nat>)
    requires Inv(s, ring) && !s.cfg.overwrite && Finding(s.r, ring)
    ensures !Steps(s, acts).r.RLost?
    decreases |acts|
  {
    if acts != [] {
      StepKeepsInv(s, acts[0], ring);
      StepFinds(s, acts[0], ring);
      WriterKeepsShape(s, acts[0].go);
      ReaderKeepsShape(s, acts[0].go);
      StepsFind(Step(s, acts[0]), acts[1..], RingAfter(s, acts[0], ring));
    }
  }

  // ----- with overwriting it can be led past the head for ever -----

  function After(n: nat, p: nat): nat
    requires p < n
  {
    if p + 1 == n then 0 else p + 1
  }

  function Before(n: nat, p: nat): nat
    requires p < n
  {
    if p == 0 then n - 1 else p - 1
  }

  /** The links of a ring 0..n-1 with its head at h, and page n out of it. */
  function FullNext(n: nat, h: nat): (next: seq<Link>)
    requires n >= 2 && h < n
    ensures |next| == n + 1
  {
    seq(n + 1, i requires 0 <= i <= n =>
      if i == n then Link(n, Normal) else Link(After(n, i), if i == Before(n, h) then Head else Normal))
  }

  function FullPrev(n: nat): (prev: seq<nat>)
    requires n >= 2
    ensures |prev| == n + 1
  {
    seq<nat>(n + 1, i requires 0 <= i <= n => if i == n then n else Before(n, i))
  }

  /** The writer has filled the ring: its tail is the page before the head. */
  function FullRing(n: nat, cfg: Config, h: nat, r: ReaderPc): State
    requires n >= 2 && h < n
  {
    State(cfg, FullNext(n, h), FullPrev(n), Before(n, h), Before(n, h), 0, n, 0, WIdle, r)
  }

  lemma {:induction false} Filled(n: nat, cfg: Config, k: nat)
    requires n >= 2 && k < n
    ensures Reaches(Init(n, cfg), Init(n, cfg).(tail := k, commit := k))
  {
    hide Steps;
    var i := Init(n, cfg);
    if k == 0 {
      NoSteps(i);
    } else {
      Filled(n, cfg, k - 1);
      var w := Writer(true);
      var s := i.(tail := k - 1, commit := k - 1);
      Four(s, w, s.(w := WNext(k)), w, s.(w := WTail(k)), w, s.(tail := k), w, s.(tail := k, commit := k));
      ReachesSteps(i, s, [w, w, w, w], s.(tail := k, commit := k));
    }
  }

  lemma NoSteps(s: State)
    requires Shape(s)
    ensures Reaches(s, s)
  {
    assert Steps(s, []) == s;
  }

  lemma {:induction false} ScanBegins(n: nat, cfg: Config)
    requires n >= 2
    ensures Reaches(Init(n, cfg), FullRing(n, cfg, 0, RScan(0, 0, 0)))
  {
    hide Steps;
    Filled(n, cfg, n - 1);
    var s := FullRing(n, cfg, 0, RIdle);
    assert Init(n, cfg).(tail := n - 1, commit := n - 1) == s by {
      assert Init(n, cfg).next == s.next && Init(n, cfg).prev == s.prev;
    }
    var r := Reader(true);
    var t, u := s.(r := RSpin), s.(r := RScan(0, 0, 0));
    OneStep(Init(n, cfg), s, r, t);
    OneStep(Init(n, cfg), t, r, u);
  }

  lemma {:induction false} OneStep(i: State, s: State, a: Action, t: State)
    requires Shape(i) && Reaches(i, s) && Shape(s) && Step(s, a) == t
    ensures Reaches(i, t)
  {
    assert Steps(s, [a]) == t by {
      WriterKeepsShape(s, a.go);
      ReaderKeepsShape(s, a.go);
      assert [a][1..] == [];
    }
    ReachesSteps(i, s, [a], t);
  }

  /** The writer reserves on a full ring: its test finds the head, and that it is not on the reader page. */
  lemma {:induction false} PushBegins(n: nat, cfg: Config, h: nat, r: ReaderPc)
    requires n >= 2 && h < n && cfg.overwrite && Shape(FullRing(n, cfg, h, r))
    requires Reaches(Init(n, cfg), FullRing(n, cfg, h, r))
    ensures Reaches(Init(n, cfg), FullRing(n, cfg, h, r).(w := WHandle(h)))
  {
    hide Steps;
    var i, w, s := Init(n, cfg), Writer(true), FullRing(n, cfg, h, r);
    var p := Before(n, Before(n, h));
    OneStep(i, s, w, s.(w := WNext(h)));
    OneStep(i, s.(w := WNext(h)), w, s.(w := WHead(h)));
    if cfg.split {
      OneStep(i, s.(w := WHead(h)), w, s.(w := WPrev(h, p)));
      OneStep(i, s.(w := WPrev(h, p)), w, s.(w := WHandle(h)));
    } else {
      OneStep(i, s.(w := WHead(h)), w, s.(w := WHandle(h)));
    }
  }

  /** HEAD has moved on from page h; the tail is about to move there. */
  function HeadMoved(n: nat, cfg: Config, h: nat, r: ReaderPc): State
    requires n >= 2 && h < n
  {
    FullRing(n, cfg, After(n, h), r).(tail := Before(n, h), commit := Before(n, h), w := WTail(h))
  }

  /** It moves HEAD on by one page; its tail follows. */
  lemma {:induction false} PushEnds(n: nat, cfg: Config, h: nat, r: ReaderPc)
    requires n >= 2 && h < n && cfg.overwrite && Shape(FullRing(n, cfg, h, r))
    requires Reaches(Init(n, cfg), FullRing(n, cfg, h, r).(w := WHandle(h)))
    ensures Reaches(Init(n, cfg), HeadMoved(n, cfg, h, r))
  {
    hide Steps;
    var i, w, s := Init(n, cfg), Writer(true), FullRing(n, cfg, h, r);
    var last, h' := Before(n, h), After(n, h);
    var t := s.(next := s.next[last := Link(h, Update)]);
    var u := t.(next := t.next[h := Link(h', Head)], w := WMoved(h, h'));
    var v := HeadMoved(n, cfg, h, r);
    assert u.next[last := Link(h, Normal)] == v.next;
    assert t.next[h] == Link(h', Normal);
    Four(s.(w := WHandle(h)), w, t.(w := WUpdate(h)), w, t.(w := WNewHead(h, h')), w, u, w, v);
    ReachesSteps(i, s.(w := WHandle(h)), [w, w, w, w], v);
  }

  lemma {:induction false} TailFollows(n: nat, cfg: Config, h: nat, r: ReaderPc)
    requires n >= 2 && h < n && Shape(FullRing(n, cfg, h, r))
    requires Reaches(Init(n, cfg), HeadMoved(n, cfg, h, r))
    ensures Reaches(Init(n, cfg), FullRing(n, cfg, After(n, h), r))
  {
    hide Steps;
    var i, w := Init(n, cfg), Writer(true);
    var v := HeadMoved(n, cfg, h, r);
    var x := v.(tail := h, w := WIdle);
    OneStep(i, v, w, x);
    OneStep(i, x, w, FullRing(n, cfg, After(n, h), r));
  }

  lemma {:induction false} Pushed(n: nat, cfg: Config, h: nat, r: ReaderPc)
    requires n >= 2 && h < n && cfg.overwrite && Shape(FullRing(n, cfg, h, r))
    requires Reaches(Init(n, cfg), FullRing(n, cfg, h, r))
    ensures Reaches(Init(n, cfg), FullRing(n, cfg, After(n, h), r))
  {
    PushBegins(n, cfg, h, r);
    PushEnds(n, cfg, h, r);
    TailFollows(n, cfg, h, r);
  }

  /** Just before the reader looks at page p, the writer has moved HEAD on to the page after it. */
  lemma {:induction false} Chase(n: nat, cfg: Config, laps: nat, p: nat)
    requires n >= 2 && cfg.overwrite && laps < 3 && p < n
    ensures Shape(FullRing(n, cfg, After(n, p), RScan(p, 0, laps)))
    ensures Reaches(Init(n, cfg), FullRing(n, cfg, After(n, p), RScan(p, 0, laps)))
    decreases laps, p
  {
    if laps == 0 && p == 0 {
      ScanBegins(n, cfg);
      Pushed(n, cfg, 0, RScan(0, 0, 0));
    } else {
      var p0 := Before(n, p);
      var laps0 := if p == 0 then laps - 1 else laps;
      Chase(n, cfg, laps0, p0);
      Missed(n, cfg, laps0, p0);
      OneStep(Init(n, cfg), FullRing(n, cfg, p, RScan(p0, 0, laps0)), Reader(true), FullRing(n, cfg, p, RScan(p, 0, laps)));
      Pushed(n, cfg, p, RScan(p, 0, laps));
    }
  }

  /** The reader looks at page p, and HEAD is one page further. */
  lemma {:induction false} Missed(n: nat, cfg: Config, laps: nat, p: nat)
    requires n >= 2 && laps < 3 && p < n
    ensures var s := FullRing(n, cfg, After(n, p), RScan(p, 0, laps));
            && Shape(s)
            && ReaderStep(s, true) ==
                 s.(r := if p + 1 < n then RScan(p + 1, 0, laps) else if laps < 2 then RScan(0, 0, laps + 1) else RLost)
  {
  }

  /** With overwriting a writer that moves HEAD on each time the reader is about to look at it leads
      it around three times. */
  lemma {:induction false} LedAround(n: nat, cfg: Config) returns (t: State)
    requires n >= 2 && cfg.overwrite
    ensures Reaches(Init(n, cfg), t) && t.r.RLost?
  {
    Chase(n, cfg, 2, n - 1);
    Missed(n, cfg, 2, n - 1);
    var s := FullRing(n, cfg, 0, RScan(n - 1, 0, 2));
    t := s.(r := RLost);
    OneStep(Init(n, cfg), s, Reader(true), t);
  }

  /** Exactly when the reader never gives up looking for the head: the buffer does not overwrite. */
  lemma {:induction false} LostExactlyWhenOverwriting(n: nat, cfg: Config)
    requires n >= 2
    ensures !cfg.overwrite <==> forall acts :: !Run(n, cfg, acts).r.RLost?
  {
    if !cfg.overwrite {
      InitInv(n, cfg);
      forall acts ensures !Run(n, cfg, acts).r.RLost? {
        StepsFind(Init(n, cfg), acts, seq(n, i => i));
      }
    } else {
      var t := LedAround(n, cfg);
      var acts :| Steps(Init(n, cfg), acts) == t;
      assert Run(n, cfg, acts) == t;
    }
  }
}
