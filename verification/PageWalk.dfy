/**
 gtp_rb_walk: the cursor that steps over the entries of the page ring, and the order of frame
 ids in what the writer leaves there.
 */
module PageWalk {
  import opened Options
  import opened PageRing
  import opened PageRuns

  datatype Kind = HeadKind | RegKind | MemKind | VarKind | BeginKind | EndKind

  function KindOf(e: Entry): Kind {
    match e
    case Head(_, _, _) => HeadKind
    case Reg(_) => RegKind
    case Mem(_, _) => MemKind
    case Var(_, _) => VarKind
    case PageBegin(_) => BeginKind
    case PageEnd => EndKind
  }

  datatype Reason = AtEnd | AtPageEnd | AtEntryEnd | AtNewEntry | AtType | AtStep | AtError

  /** struct gtp_rb_walk_s: an option that is None is a flag not set. */
  datatype Walker = Walker(
    end: Option<Addr>, passPage: bool, passEntry: bool, id: Option<nat>, kind: Option<Kind>, step: Option<nat>)

  predicate Counted(e: Entry) {
    e.Reg? || e.Mem? || e.Var?
  }

  /** Why the walk stops at the entry, if it does. */
  function StopAt(s: Walker, e: Entry, step: nat): Option<Reason> {
    if s.kind == Some(KindOf(e)) then Some(AtType)
    else if s.step.Some? && Counted(e) && step >= s.step.value then Some(AtStep)
    else if e.Head? && !s.passEntry then Some(AtNewEntry)
    else if e.PageBegin? && s.id.Some? && s.id.value != e.id then Some(AtEntryEnd)
    else if e.PageEnd? then Some(AtError)
    else None
  }

  function StepAfter(s: Walker, e: Entry, step: nat): nat {
    if s.step.Some? && Counted(e) then step + 1 else step
  }

  /** The walk over what is left: the rest of the page it stands on, then whole pages.  `bounded`
      says that the last page is the one being written, and the walk knows its end. */
  function Scan(s: Walker, bounded: bool, rest: seq<seq<Entry>>, step: nat): (r: (Reason, seq<seq<Entry>>))
    requires rest != []
    ensures r.1 != []
    decreases |rest|, |rest[0]|
  {
    if rest[0] == [] then
      if |rest| == 1 then (if bounded then AtEnd else AtPageEnd, rest)
      else if !s.passPage then (AtPageEnd, rest)
      else Scan(s, bounded, rest[1..], step)
    else
      var e := rest[0][0];
      match StopAt(s, e, step)
      case Some(reason) => (reason, rest)
      case None => Scan(s, bounded, [rest[0][1..]] + rest[1..], StepAfter(s, e, step))
  }

  /** `at` is the address of what is left: the entries are there, page after page, each page but
      the one being written ended. */
  ghost predicate Stands(next: map<Page, Page>, mem: map<Addr, Entry>, w: Option<Addr>, at: Addr,
                         rest: seq<seq<Entry>>, pages: seq<Page>)
    decreases |rest|
  {
    && rest != [] && |pages| == |rest| && at.page == pages[0]
    && PageOk(mem, PageLog(at.page, at.off, rest[0]))
    && (if |rest| == 1 && w.Some? then w.value == Addr(at.page, EndOff(at.off, rest[0]))
        else Ended(mem, PageLog(at.page, at.off, rest[0])))
    && (|rest| > 1 ==>
        && at.page in next && next[at.page] == pages[1]
        && (w.Some? ==> at.page != w.value.page)
        && Stands(next, mem, w, Addr(pages[1], DATA), rest[1..], pages[1..]))
  }

  /** At an entry, at the end of a page, or at `w`: the three tests of the loop tell them apart. */
  lemma Tests(next: map<Page, Page>, mem: map<Addr, Entry>, w: Option<Addr>, at: Addr,
              rest: seq<seq<Entry>>, pages: seq<Page>)
    requires Stands(next, mem, w, at, rest, pages)
    ensures w == Some(at) <==> rest[0] == [] && |rest| == 1 && w.Some?
    ensures rest[0] != [] ==>
      at.off + FID_SIZE <= END && at in mem && mem[at] == rest[0][0] && !mem[at].PageEnd?
    ensures rest[0] == [] && w != Some(at) ==> at.off == END || (at in mem && mem[at] == PageEnd)
  {
    if rest[0] != [] {
      EndGrows(at.off + Size(rest[0][0]), rest[0][1..]);
    }
  }

  lemma EndGrows(start: int, entries: seq<Entry>)
    ensures EndOff(start, entries) >= start
  {
  }

  lemma StepsOver(next: map<Page, Page>, mem: map<Addr, Entry>, w: Option<Addr>, at: Addr,
                  rest: seq<seq<Entry>>, pages: seq<Page>)
    requires Stands(next, mem, w, at, rest, pages) && rest[0] != []
    ensures Stands(next, mem, w, Addr(at.page, at.off + Size(rest[0][0])), [rest[0][1..]] + rest[1..], pages)
  {
    var rest' := [rest[0][1..]] + rest[1..];
    assert rest'[1..] == rest[1..];
  }

  lemma PassesPage(next: map<Page, Page>, mem: map<Addr, Entry>, w: Option<Addr>, at: Addr,
                   rest: seq<seq<Entry>>, pages: seq<Page>)
    requires Stands(next, mem, w, at, rest, pages) && |rest| > 1
    ensures |pages| == |rest| && at.page in next && next[at.page] == pages[1]
    ensures Stands(next, mem, w, Addr(pages[1], DATA), rest[1..], pages[1..])
  {
  }

  /** One turn of the scan. */
  lemma ScanTurn(s: Walker, bounded: bool, rest: seq<seq<Entry>>, step: nat)
    requires rest != []
    ensures rest[0] == [] && |rest| == 1 ==>
      Scan(s, bounded, rest, step) == (if bounded then AtEnd else AtPageEnd, rest)
    ensures rest[0] == [] && |rest| > 1 ==>
      Scan(s, bounded, rest, step) == if s.passPage then Scan(s, bounded, rest[1..], step) else (AtPageEnd, rest)
    ensures rest[0] != [] ==>
      Scan(s, bounded, rest, step)
      == (match StopAt(s, rest[0][0], step)
          case Some(reason) => (reason, rest)
          case None => Scan(s, bounded, [rest[0][1..]] + rest[1..], StepAfter(s, rest[0][0], step)))
  {
  }

  /** gtp_rb_walk.  On anything that stands so, it ends, at the place and for the reason the scan
      gives; it never meets an entry it does not know. */
  method Walk(next: map<Page, Page>, mem: map<Addr, Entry>, s: Walker, start: Addr,
              ghost rest: seq<seq<Entry>>, ghost pages: seq<Page>)
    returns (reason: Reason, at: Addr, ghost rest': seq<seq<Entry>>, ghost pages': seq<Page>)
    requires Stands(next, mem, s.end, start, rest, pages)
    requires s.end.None? ==> !s.passPage
    ensures (reason, rest') == Scan(s, s.end.Some?, rest, 0) && reason != AtError
    ensures Stands(next, mem, s.end, at, rest', pages')
    ensures !s.passPage ==> pages' == pages
  {
    hide Stands, Scan, Size;
    at, rest', pages' := start, rest, pages;
    var step := 0;
    StandsSomewhere(next, mem, s.end, at, rest, pages);
    while true
      invariant rest' != [] && Stands(next, mem, s.end, at, rest', pages')
      invariant Scan(s, s.end.Some?, rest', step) == Scan(s, s.end.Some?, rest, 0)
      invariant !s.passPage ==> pages' == pages
      decreases |rest'|, |rest'[0]|
    {
      Tests(next, mem, s.end, at, rest', pages');
      ScanTurn(s, s.end.Some?, rest', step);
      if s.end == Some(at) {
        return AtEnd, at, rest', pages';
      }
      if at.off == END || END - at.off < FID_SIZE || mem[at].PageEnd? {
        if !s.passPage {
          return AtPageEnd, at, rest', pages';
        }
        PassesPage(next, mem, s.end, at, rest', pages');
        at := Addr(next[at.page], DATA);
        rest', pages' := rest'[1..], pages'[1..];
      } else {
        var e := mem[at];
        if s.kind == Some(KindOf(e)) {
          return AtType, at, rest', pages';
        }
        if s.step.Some? && Counted(e) && step >= s.step.value {
          return AtStep, at, rest', pages';
        }
        if e.Head? && !s.passEntry {
          return AtNewEntry, at, rest', pages';
        }
        if e.PageBegin? && s.id.Some? && s.id.value != e.id {
          return AtEntryEnd, at, rest', pages';
        }
        if s.step.Some? && Counted(e) {
          step := step + 1;
        }
        StepsOver(next, mem, s.end, at, rest', pages');
        at := Addr(at.page, at.off + Size(e));
        rest' := [rest'[0][1..]] + rest'[1..];
      }
    }
  }

  lemma StandsSomewhere(next: map<Page, Page>, mem: map<Addr, Entry>, w: Option<Addr>, at: Addr,
                        rest: seq<seq<Entry>>, pages: seq<Page>)
    requires Stands(next, mem, w, at, rest, pages)
    ensures rest != [] && |pages| == |rest|
  {
  }

  // ----- the walk from r to w -----

  function Entries(region: seq<PageLog>): (r: seq<seq<Entry>>)
    ensures |r| == |region| && forall i :: 0 <= i < |r| ==> r[i] == region[i].entries
  {
    seq(|region|, i requires 0 <= i < |region| => region[i].entries)
  }

  /** From `r`, the walk stands before everything the view holds. */
  lemma RegionStands(rb: Rb, v: View)
    requires Rep(rb, v)
    ensures Stands(rb.next, rb.mem, Some(rb.w), rb.r, Entries(v.region), Pages(v.region))
  {
    StandsFrom(rb, v, 0);
    assert v.region[0..] == v.region;
  }

  lemma {:induction false} StandsFrom(rb: Rb, v: View, k: nat)
    requires Rep(rb, v) && k < |v.region|
    ensures var p := v.region[k];
            Stands(rb.next, rb.mem, Some(rb.w), Addr(p.page, p.start), Entries(v.region[k..]), Pages(v.region[k..]))
    decreases |v.region| - k
  {
    hide Cells, EndOff, Stands, Rep, PageOk;
    if k + 1 < |v.region| {
      StandsFrom(rb, v, k + 1);
    }
    StandsOn(rb, v, k);
  }

  /** One page before the others. */
  lemma {:induction false} StandsOn(rb: Rb, v: View, k: nat)
    requires Rep(rb, v) && k < |v.region|
    requires k + 1 < |v.region| ==>
      var q := v.region[k + 1];
      Stands(rb.next, rb.mem, Some(rb.w), Addr(q.page, q.start), Entries(v.region[k + 1..]), Pages(v.region[k + 1..]))
    ensures var p := v.region[k];
            Stands(rb.next, rb.mem, Some(rb.w), Addr(p.page, p.start), Entries(v.region[k..]), Pages(v.region[k..]))
  {
    hide Cells, EndOff;
    var p, ring, m := v.region[k], RingOf(v), |v.region|;
    assert PageOk(rb.mem, p);
    assert PageLog(p.page, p.start, p.entries) == p;
    if k + 1 < m {
      assert LinkedAt(rb.next, rb.prev, ring, k) && After(ring, k) == ring[k + 1] == v.region[k + 1].page;
      assert ring[k] != ring[m - 1];
      RegionTail(v.region, k);
    }
  }

  lemma {:induction false} RegionTail(region: seq<PageLog>, k: nat)
    requires k + 1 < |region|
    ensures Entries(region[k..])[1..] == Entries(region[k + 1..])
    ensures Pages(region[k..])[1..] == Pages(region[k + 1..])
  {
    var rest := region[k..];
    assert rest == [region[k]] + region[k + 1..] && rest[1..] == region[k + 1..];
    forall i | 0 <= i < |region| - k - 1 ensures Entries(rest)[1..][i] == Entries(rest[1..])[i] {
      assert rest[i + 1] == rest[1..][i];
    }
    forall i | 0 <= i < |region| - k - 1 ensures Pages(rest)[1..][i] == Pages(rest[1..])[i] {
      assert rest[i + 1] == rest[1..][i];
    }
  }

  /** A page out of the ring stands on its own. */
  lemma OutStands(next: map<Page, Page>, mem: map<Addr, Entry>, p: PageLog)
    requires PageOk(mem, p) && Ended(mem, p)
    ensures Stands(next, mem, None, Addr(p.page, p.start), [p.entries], [p.page])
  {
    assert PageLog(p.page, p.start, p.entries) == p;
  }

  /** A walk that stops for an entry stops at it. */
  lemma {:induction false} StopsAtEntry(s: Walker, bounded: bool, rest: seq<seq<Entry>>, step: nat)
    requires rest != []
    ensures var (reason, rest') := Scan(s, bounded, rest, step);
            reason != AtEnd && reason != AtPageEnd ==>
              rest'[0] != [] && Flat(rest') != [] && Flat(rest')[0] == rest'[0][0]
    decreases |rest|, |rest[0]|
  {
    if rest[0] == [] {
      if |rest| > 1 && s.passPage {
        StopsAtEntry(s, bounded, rest[1..], step);
      }
    } else if StopAt(s, rest[0][0], step).None? {
      StopsAtEntry(s, bounded, [rest[0][1..]] + rest[1..], StepAfter(s, rest[0][0], step));
    }
  }

  /** Stepping over an entry leaves the rest of the entries. */
  lemma FlatTail(rest: seq<seq<Entry>>)
    requires rest != [] && rest[0] != []
    ensures Flat(rest) == [rest[0][0]] + Flat([rest[0][1..]] + rest[1..])
  {
    assert ([rest[0][1..]] + rest[1..])[1..] == rest[1..];
  }

  // ----- pages do not matter to a walk that passes them -----

  function Flat(rest: seq<seq<Entry>>): seq<Entry> {
    if rest == [] then [] else rest[0] + Flat(rest[1..])
  }

  /** The walk over the entries alone. */
  function FlatScan(s: Walker, flat: seq<Entry>, step: nat): (Reason, seq<Entry>) {
    if flat == [] then (AtEnd, flat)
    else
      match StopAt(s, flat[0], step)
      case Some(reason) => (reason, flat)
      case None => FlatScan(s, flat[1..], StepAfter(s, flat[0], step))
  }

  /** Passing pages up to `w`, the walk is the walk over the entries, page ends left out. */
  lemma {:induction false} PagesVanish(s: Walker, rest: seq<seq<Entry>>, step: nat)
    requires rest != [] && s.passPage
    ensures var (reason, rest') := Scan(s, true, rest, step);
            FlatScan(s, Flat(rest), step) == (reason, Flat(rest'))
    decreases |rest|, |rest[0]|
  {
    if rest[0] == [] {
      if |rest| > 1 {
        PagesVanish(s, rest[1..], step);
        assert Flat(rest) == Flat(rest[1..]);
      } else {
        assert Flat(rest) == [];
      }
    } else {
      var rest' := [rest[0][1..]] + rest[1..];
      assert rest'[1..] == rest[1..];
      assert Flat(rest)[1..] == Flat(rest');
      if StopAt(s, rest[0][0], step).None? {
        PagesVanish(s, rest', StepAfter(s, rest[0][0], step));
      }
    }
  }

  // ----- frame ids along the entries -----

  /** The frame an entry belongs to, `cur` being the frame before it, if any is known. */
  function Tag(cur: Option<nat>, e: Entry): Option<nat> {
    if e.Head? || e.PageBegin? then Some(e.id) else cur
  }

  predicate Fits(cur: Option<nat>, e: Entry) {
    match e
    case Head(id, _, _) => id > 0 && (cur.Some? ==> cur.value < id)
    case PageBegin(id) => id > 0 && (cur.Some? ==> cur.value == id)
    case PageEnd => false
    case _ => true
  }

  /** Head ids increase, and a page begins with the id of the frame that goes on. */
  predicate Ordered(cur: Option<nat>, flat: seq<Entry>)
    decreases |flat|
  {
    flat == [] || (Fits(cur, flat[0]) && Ordered(Tag(cur, flat[0]), flat[1..]))
  }

  function FrameAfter(cur: Option<nat>, flat: seq<Entry>): Option<nat>
    decreases |flat|
  {
    if flat == [] then cur else FrameAfter(Tag(cur, flat[0]), flat[1..])
  }

  lemma {:induction false} OrderedForgets(cur: Option<nat>, flat: seq<Entry>)
    requires Ordered(cur, flat)
    ensures Ordered(None, flat)
  {
    if flat != [] && !flat[0].Head? && !flat[0].PageBegin? {
      OrderedForgets(cur, flat[1..]);
    }
  }

  /** Dropping pages from the front leaves the rest in order, whatever they cut through. */
  lemma {:induction false} OrderedSuffix(cur: Option<nat>, a: seq<Entry>, b: seq<Entry>)
    requires Ordered(cur, a + b)
    ensures Ordered(None, b)
    ensures FrameAfter(None, b).Some? ==> FrameAfter(cur, a + b) == FrameAfter(None, b)
    decreases |a|
  {
    if a == [] {
      assert a + b == b;
      OrderedForgets(cur, b);
      FrameForgets(cur, b);
    } else {
      assert (a + b)[1..] == a[1..] + b;
      OrderedSuffix(Tag(cur, a[0]), a[1..], b);
    }
  }

  lemma {:induction false} FrameForgets(cur: Option<nat>, flat: seq<Entry>)
    ensures FrameAfter(cur, flat) == FrameAfter(None, flat)
         || (FrameAfter(None, flat) == None && FrameAfter(cur, flat) == cur)
  {
    if flat != [] && !flat[0].Head? && !flat[0].PageBegin? {
      FrameForgets(cur, flat[1..]);
    }
  }

  lemma {:induction false} OrderedPrefix(cur: Option<nat>, a: seq<Entry>, b: seq<Entry>)
    requires Ordered(cur, a + b)
    ensures Ordered(cur, a) && Ordered(FrameAfter(cur, a), b)
    decreases |a|
  {
    if a == [] {
      assert a + b == b;
    } else {
      assert (a + b)[1..] == a[1..] + b;
      OrderedPrefix(Tag(cur, a[0]), a[1..], b);
    }
  }

  lemma {:induction false} OrderedGrows(cur: Option<nat>, a: seq<Entry>, b: seq<Entry>)
    requires Ordered(cur, a) && Ordered(FrameAfter(cur, a), b)
    ensures Ordered(cur, a + b) && FrameAfter(cur, a + b) == FrameAfter(FrameAfter(cur, a), b)
    decreases |a|
  {
    if a == [] {
      assert a + b == b;
    } else {
      assert (a + b)[1..] == a[1..] + b;
      OrderedGrows(Tag(cur, a[0]), a[1..], b);
    }
  }

  /** A walk that checks the id of the frame it is in never meets another frame's page: it stops
      at the next head, or at what it looks for inside the frame, or at `w`. */
  lemma {:induction false} WalkStaysInFrame(s: Walker, id: nat, flat: seq<Entry>, step: nat)
    requires Ordered(Some(id), flat) && s.id == Some(id) && !s.passEntry
    ensures var (reason, rest) := FlatScan(s, flat, step);
            && reason != AtEntryEnd && reason != AtError
            && |rest| <= |flat| && rest == flat[|flat| - |rest|..]
            && (forall i :: 0 <= i < |flat| - |rest| ==> !flat[i].Head? && (flat[i].PageBegin? ==> flat[i].id == id))
            && Ordered(Some(id), rest)
  {
    if flat != [] && StopAt(s, flat[0], step).None? {
      WalkStaysInFrame(s, id, flat[1..], StepAfter(s, flat[0], step));
      var (reason, rest) := FlatScan(s, flat, step);
      forall i | 0 <= i < |flat| - |rest|
        ensures !flat[i].Head? && (flat[i].PageBegin? ==> flat[i].id == id)
      {
        if i > 0 {
          assert flat[i] == flat[1..][i - 1];
        }
      }
    }
  }

  // ----- what the writer leaves is in order -----

  /** The records are those of frame `id`, or the head that starts it. */
  predicate Continues(cur: Option<nat>, e: Entry, id: nat) {
    if e.Head? then id == 0 && e.id > 0 && (cur.Some? ==> cur.value < e.id)
    else Record(e) && id > 0 && cur == Some(id)
  }

  lemma FlatAppend(a: seq<seq<Entry>>, b: seq<seq<Entry>>)
    ensures Flat(a + b) == Flat(a) + Flat(b)
  {
    if a == [] {
      assert a + b == b;
    } else {
      assert (a + b)[1..] == a[1..] + b;
      FlatAppend(a[1..], b);
    }
  }

  function Content(v: View): seq<Entry> {
    Flat(Entries(v.region))
  }

  lemma AppendedContent(v: View, e: Entry)
    requires v.region != []
    ensures Content(Appended(v, e)) == Content(v) + [e]
  {
    var last := |v.region| - 1;
    var before := Entries(v.region[..last]);
    assert Entries(v.region) == before + [v.region[last].entries];
    assert Entries(Appended(v, e).region) == before + [v.region[last].entries + [e]];
    FlatAppend(before, [v.region[last].entries]);
    FlatAppend(before, [v.region[last].entries + [e]]);
  }

  lemma TurnedContent(v: View)
    requires v.free != []
    ensures Content(OnNewPage(v)) == Content(v)
  {
    assert Entries(OnNewPage(v).region) == Entries(v.region) + [[]];
    FlatAppend(Entries(v.region), [[]]);
  }

  lemma DroppedContent(v: View)
    requires v.region != []
    ensures Content(v) == v.region[0].entries + Content(FirstDropped(v))
  {
    assert Entries(v.region)[1..] == Entries(v.region[1..]);
  }

  /** `b` is `a` with `cut` gone from its front, and `begun` and the entry added. */
  predicate Grown(a: seq<Entry>, b: seq<Entry>, cut: seq<Entry>, kept: seq<Entry>, begun: seq<Entry>, e: Entry, id: nat) {
    && a == cut + kept && b == kept + begun + [e]
    && (begun == [] || (begun == [PageBegin(id)] && id > 0))
  }

  /** Writing an entry appends it, after the record that begins a page when a frame that goes on crosses
      into one; only in circular mode, and only when it needs a page and none is free, does it cut the
      oldest page off the front. */
  lemma {:induction false} WrittenContent(v: View, circular: bool, e: Entry, id: nat)
    returns (cut: seq<Entry>, kept: seq<Entry>, begun: seq<Entry>)
    requires v.region != [] && |RingOf(v)| >= 2 && Size(e) <= DATA_MAX && Opened(v, circular, Size(e), id).Some?
    ensures Grown(Content(v), Content(WrittenView(v, circular, e, id)), cut, kept, begun, e, id)
    ensures circular || cut == []
    ensures var fits := EndOf(Current(v)) + Size(e) <= 4088;
            && begun == (if fits || id == 0 then [] else [PageBegin(id)])
            && cut == (if fits || v.free != [] then [] else v.region[0].entries)
  {
    hide Content, RingOf, Appended, OnNewPage, FirstDropped, Size, EndOff;
    cut, kept, begun := [], Content(v), [];
    var turned := Opened(v, circular, Size(e), id).value;
    if !Room(v, Size(e)) {
      if v.free == [] {
        cut := v.region[0].entries;
      }
      if id != 0 {
        begun := [PageBegin(id)];
      }
      kept := TurnedPage(v, id, cut);
    }
    AppendedContent(turned, e);
    assert WrittenView(v, circular, e, id) == Appended(turned, e);
  }

  /** A page is turned, if none is free the oldest, and begun with the frame's id. */
  lemma {:induction false} TurnedPage(v: View, id: nat, cut: seq<Entry>) returns (kept: seq<Entry>)
    requires v.region != [] && |RingOf(v)| >= 2 && cut == if v.free == [] then v.region[0].entries else []
    ensures Content(v) == cut + kept
    ensures var v1 := OnNewPage(if v.free == [] then FirstDropped(v) else v);
            var v2 := if id == 0 then v1 else Appended(v1, PageBegin(id));
            v2.region != [] && Content(v2) == kept + if id == 0 then [] else [PageBegin(id)]
  {
    hide Content;
    var v0 := if v.free == [] then FirstDropped(v) else v;
    DroppedContent(v);
    TurnedContent(v0);
    AppendedContent(OnNewPage(v0), PageBegin(id));
    kept := Content(v0);
  }

  /** The ids stay in order under every write of a writer that gives each frame a greater id and
      its records that id, circular or not. */
  lemma WriteKeepsOrder(v: View, circular: bool, e: Entry, id: nat, cur: Option<nat>)
    requires v.region != [] && |RingOf(v)| >= 2
    requires Ordered(None, Content(v)) && Continues(cur, e, id)
    requires FrameAfter(None, Content(v)) == None || FrameAfter(None, Content(v)) == cur
    ensures var v' := WrittenView(v, circular, e, id);
            var cur' := if e.Head? && Size(e) <= DATA_MAX && Opened(v, circular, Size(e), id).Some? then Some(e.id)
                        else cur;
            Ordered(None, Content(v')) && (FrameAfter(None, Content(v')) == None || FrameAfter(None, Content(v')) == cur')
  {
    if Size(e) <= DATA_MAX && Opened(v, circular, Size(e), id).Some? {
      var cut, kept, begun := WrittenContent(v, circular, e, id);
      OrderedSuffix(None, cut, kept);
      assert FrameAfter(None, kept) == None || FrameAfter(None, kept) == cur;
      OrderedGrows(None, kept, begun);
      OrderedGrows(None, kept + begun, [e]);
    }
  }
}
