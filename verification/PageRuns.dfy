/**
 Runs of the page ring: the object whose fields gtp_rb.c changes in place, and what every
 sequence of its operations keeps.
 */
module PageRuns {
  import opened Options
  import opened PageRing

  /** struct gtp_rb_s with the pages it links, less the lock and the read position. */
  class RingBuffer {
    var next: map<Page, Page>
    var prev: map<Page, Page>
    var mem: map<Addr, Entry>
    var w: Addr
    var prevW: Addr
    var r: Addr
    var prevFrame: Option<Addr>

    constructor () {
      next, prev, mem, w, prevW, r := map[], map[], map[], Addr(0, 0), Addr(0, 0), Addr(0, 0);
      prevFrame := None;
    }

    ghost function State(): Rb
      reads this
    {
      Rb(next, prev, mem, w, r)
    }

    /** gtp_rb_alloc. */
    method Alloc(circular: bool, size: nat, id: nat) returns (at: Option<Addr>)
      requires w.page in next && r.page in next
      modifies this
      ensures (State(), at) == PageRing.Alloc(old(State()), circular, size, id)
      ensures prevW == if Align(size) <= DATA_MAX then old(w) else old(prevW)
      ensures prevFrame == old(prevFrame)
    {
      var size := Align(size);
      if size > DATA_MAX {
        return None;
      }
      prevW := w;
      if w.off + size > END {
        if END - w.off >= FID_SIZE {
          mem := Store(mem, w, PageEnd);
        }
        if next[w.page] == r.page {
          if circular {
            r := Addr(next[r.page], DATA);
          } else {
            return None;
          }
        }
        w := Addr(next[w.page], DATA);
        if id != 0 {
          mem := Store(mem, w, PageBegin(id));
          w := Addr(w.page, w.off + Align(BEGIN_SIZE));
        }
      }
      at := Some(w);
      w := Addr(w.page, w.off + size);
    }

    /** GTP_RB_RELEASE. */
    method Release()
      modifies this`w
      ensures State() == old(State()).(w := prevW)
    {
      w := prevW;
    }

    /** gtp_rb_get_page. */
    method GetPage() returns (page: Option<Addr>)
      requires Links(State())
      modifies this
      ensures (State(), page) == PageRing.GetPage(old(State())) && prevFrame == old(prevFrame)
    {
      if r.page == w.page {
        if r == w {
          return None;
        }
        if END - w.off >= FID_SIZE {
          mem := Store(mem, w, PageEnd);
        }
        w := Addr(next[w.page], DATA);
      }
      page := Some(r);
      var before, after := prev[r.page], next[r.page];
      next := next[before := after];
      prev := prev[after := before];
      r := Addr(after, DATA);
    }

    /** gtp_rb_put_page. */
    method PutPage(page: Addr, isEmpty: bool)
      requires Links(State())
      modifies this
      ensures State() == PageRing.PutPage(old(State()), page, isEmpty) && prevFrame == old(prevFrame)
    {
      var before, after;
      if isEmpty {
        var first := Addr(page.page, DATA);
        if w.off == DATA {
          before, after := prev[w.page], w.page;
          if r == w {
            r := first;
          }
          w := first;
        } else {
          before, after := w.page, next[w.page];
        }
      } else {
        if r.off == DATA {
          before, after := prev[r.page], r.page;
        } else {
          before, after := r.page, next[r.page];
        }
        r := page;
      }
      next := next[before := page.page];
      prev := prev[after := page.page];
      prev := prev[page.page := before];
      next := next[page.page := after];
    }

    /** gtp_rb_reset, for one CPU. */
    method Reset()
      modifies this`w, this`r, this`prevFrame
      ensures State() == PageRing.Reset(old(State())) && prevFrame == None
    {
      w := Addr(w.page, DATA);
      r := w;
      prevFrame := None;
    }

    /** The caller of gtp_rb_alloc fills in the room it got. */
    method Fill(at: Addr, e: Entry)
      modifies this`mem
      ensures State() == old(State()).(mem := Store(old(mem), at, e))
    {
      mem := Store(mem, at, e);
    }

    /** gtp_rb_page_alloc for one CPU; `supply` is what the page allocator gives.  The ring runs
        from the page obtained last to the one obtained first. */
    method PageAlloc(size: int, supply: seq<Page>) returns (ok: bool, ghost ring: seq<Page>)
      requires size > 0 && Distinct(supply)
      modifies this
      ensures ok <==> 3 <= (size + 4095) / 4096 <= |supply|
      ensures ok ==> ring == Backwards(supply[..(size + 4095) / 4096]) && |ring| >= 3
      ensures ok ==> Rep(State(), View([PageLog(ring[0], DATA, [])], ring[1..]))
    {
      hide Chained, Distinct, Rep;
      var last, following: Option<Page> := None, None;
      var left, count := size, 0;
      ring := [];
      ok := false;
      while left > 0
        invariant 0 <= count <= |supply| && left == size - 4096 * count && left > -4096
        invariant ring == Backwards(supply[..count])
        invariant count > 0 ==> w == Addr(ring[0], DATA) && following == Some(ring[0]) && last == Some(ring[count - 1])
        invariant count > 0 ==> Chained(next, prev, ring)
        invariant count == 0 ==> last == None && following == None
      {
        left := left - 4096;
        if count == |supply| {
          return;
        }
        var page := supply[count];
        NewToRing(supply, count);
        w := Addr(page, DATA);
        if following.Some? {
          ChainGrows(next, prev, ring, page);
          next := next[page := following.value];
          prev := prev[following.value := page];
        } else {
          OneChained(next, prev, page);
          assert [page] + ring == [page];
        }
        following := Some(page);
        if last.None? {
          last := Some(page);
        }
        assert supply[..count + 1][..count] == supply[..count];
        ring := [page] + ring;
        count := count + 1;
      }
      ghost var next0, prev0 := next, prev;
      next := next[last.value := following.value];
      prev := prev[following.value := last.value];
      r := w;
      if count < 3 {
        return;
      }
      ChainCloses(State(), ring, next0, prev0);
      ok := true;
    }

    /** gtp_rb_page_free: every page of the ring is freed once, and none is read after that. */
    method PageFree(ghost ring: seq<Page>) returns (freed: seq<Page>)
      requires Linked(next, prev, ring) && ring[0] == w.page
      modifies this`w, this`r
      ensures freed == ring
    {
      var needFree: Option<Page> := None;
      var isFirst := true;
      ghost var i := 0;
      freed := [];
      w := Addr(w.page, DATA);
      r := w;
      while isFirst || w != r
        invariant i <= |ring| && (isFirst <==> i == 0)
        invariant r == Addr(ring[0], DATA) && w == Addr(if i < |ring| then ring[i] else ring[0], DATA)
        invariant if i == 0 then freed == [] && needFree == None
                  else freed == ring[..i - 1] && needFree == Some(ring[i - 1])
        decreases |ring| - i
      {
        if needFree.Some? {
          freed := freed + [needFree.value];
        }
        needFree := Some(w.page);
        isFirst := false;
        assert LinkedAt(next, prev, ring, i);
        assert w.page !in freed;
        w := Addr(next[w.page], DATA);
        i := i + 1;
      }
      if needFree.Some? {
        freed := freed + [needFree.value];
      }
    }
  }

  function Backwards(s: seq<Page>): (r: seq<Page>)
    ensures |r| == |s|
  {
    if s == [] then [] else [s[|s| - 1]] + Backwards(s[..|s| - 1])
  }

  lemma {:induction false} BackwardsHolds(s: seq<Page>, page: Page)
    ensures page in Backwards(s) <==> page in s
  {
    if s != [] {
      BackwardsHolds(s[..|s| - 1], page);
      assert s == s[..|s| - 1] + [s[|s| - 1]];
    }
  }

  lemma NewToRing(supply: seq<Page>, k: nat)
    requires Distinct(supply) && k < |supply|
    ensures supply[k] !in Backwards(supply[..k])
  {
    BackwardsHolds(supply[..k], supply[k]);
  }

  /** The links join neighbours, but the ends are still open. */
  ghost predicate Chained(next: map<Page, Page>, prev: map<Page, Page>, ring: seq<Page>) {
    Distinct(ring) && forall i :: 0 < i < |ring| ==> Joined(next, prev, ring[i - 1], ring[i])
  }

  predicate Joined(next: map<Page, Page>, prev: map<Page, Page>, a: Page, b: Page) {
    a in next && next[a] == b && b in prev && prev[b] == a
  }

  lemma OneChained(next: map<Page, Page>, prev: map<Page, Page>, page: Page)
    ensures Chained(next, prev, [page])
  {
  }

  lemma ChainGrows(next: map<Page, Page>, prev: map<Page, Page>, ring: seq<Page>, page: Page)
    requires Chained(next, prev, ring) && ring != [] && page !in ring
    ensures Chained(next[page := ring[0]], prev[ring[0] := page], [page] + ring)
  {
    var longer := [page] + ring;
    forall i | 0 < i < |longer|
      ensures Joined(next[page := ring[0]], prev[ring[0] := page], longer[i - 1], longer[i])
    {
      if i > 1 {
        assert Joined(next, prev, ring[i - 2], ring[i - 1]) && ring[i - 1] != ring[0];
      }
    }
  }

  /** Joining the two ends makes the ring, empty and written from its first page. */
  lemma ChainCloses(rb: Rb, ring: seq<Page>, next: map<Page, Page>, prev: map<Page, Page>)
    requires |ring| >= 2 && Chained(next, prev, ring)
    requires rb.next == next[ring[|ring| - 1] := ring[0]] && rb.prev == prev[ring[0] := ring[|ring| - 1]]
    requires rb.w == rb.r == Addr(ring[0], DATA)
    ensures Rep(rb, View([PageLog(ring[0], DATA, [])], ring[1..]))
  {
    forall i | 0 <= i < |ring|
      ensures LinkedAt(rb.next, rb.prev, ring, i)
    {
      assert i > 0 ==> Joined(next, prev, ring[i - 1], ring[i]);
      assert i + 1 < |ring| ==> Joined(next, prev, ring[i], ring[i + 1]);
    }
    assert RingOf(View([PageLog(ring[0], DATA, [])], ring[1..])) == ring;
  }

  // ----- every sequence of operations -----

  /** A CPU's ring and the page a reader has taken out of it, at the address it reads from. */
  datatype System = System(rb: Rb, out: Option<Addr>)

  /** What they hold. */
  datatype Held = Held(v: View, out: Option<PageLog>)

  datatype Op =
    | Write(e: Entry, id: nat)      // allocate and store
    | Abandon(size: nat, id: nat)   // allocate and release
    | Clear                         // gtp_rb_reset
    | Take                          // gtp_rb_get_page
    | Pass                          // the reader moves past an entry of its page
    | GiveEmpty                     // gtp_rb_put_page, emptied
    | GiveBack                      // gtp_rb_put_page, with what is left

  /** Between frames a reader takes at most one page. */
  predicate Enabled(h: Held, op: Op) {
    match op
    case Write(e, _) => Record(e)
    case Take => h.out.None?
    case Pass => h.out.Some? && h.out.value.entries != []
    case GiveEmpty => h.out.Some?
    case GiveBack => h.out.Some?
    case _ => true
  }

  function Do(circular: bool, s: System, op: Op): System
    requires Links(s.rb) && (op.Pass? || op.GiveEmpty? || op.GiveBack? ==> s.out.Some?)
    requires op.Pass? ==> s.out.value in s.rb.mem
  {
    match op
    case Write(e, id) => s.(rb := Written(s.rb, circular, e, id))
    case Abandon(size, id) => s.(rb := PageRing.Alloc(s.rb, circular, size, id).0.(w := s.rb.w))
    case Clear => s.(rb := PageRing.Reset(s.rb))
    case Take => var (rb, page) := PageRing.GetPage(s.rb); System(rb, page)
    case Pass => s.(out := Some(Addr(s.out.value.page, s.out.value.off + Size(s.rb.mem[s.out.value]))))
    case GiveEmpty => System(PageRing.PutPage(s.rb, s.out.value, true), None)
    case GiveBack => System(PageRing.PutPage(s.rb, s.out.value, false), None)
  }

  /** What the operation does to what is held. */
  function Effect(circular: bool, h: Held, op: Op): Held
    requires h.v.region != [] && |RingOf(h.v)| >= 2 && Enabled(h, op)
  {
    match op
    case Write(e, id) => h.(v := WrittenView(h.v, circular, e, id))
    case Abandon(size, _) => if Align(size) > DATA_MAX then h else h.(v := GivenBack(h.v, circular, Align(size)))
    case Clear => h.(v := Emptied(h.v))
    case Take =>
      if |h.v.region| == 1 && h.v.region[0].entries == [] then h else Held(Taken(h.v), Some(h.v.region[0]))
    case Pass =>
      var p := h.out.value;
      h.(out := Some(PageLog(p.page, p.start + Size(p.entries[0]), p.entries[1..])))
    case GiveEmpty => Held(PutBackEmpty(h.v, h.out.value.page), None)
    case GiveBack => Held(h.v.(region := [h.out.value] + h.v.region), None)
  }

  function OutPages(out: Option<PageLog>): seq<Page> {
    match out
    case None => []
    case Some(p) => [p.page]
  }

  /** `pages` are the pages the ring was made of: all are in the ring or out, never both. */
  ghost predicate Conserved(h: Held, pages: set<Page>) {
    && (forall p :: p in RingOf(h.v) || p in OutPages(h.out) <==> p in pages)
    && |RingOf(h.v)| + |OutPages(h.out)| == |pages|
  }

  ghost predicate Good(s: System, h: Held, pages: set<Page>) {
    && Rep(s.rb, h.v) && Conserved(h, pages) && |pages| >= 3
    && (match h.out
        case None => s.out == None
        case Some(p) =>
          && s.out == Some(Addr(p.page, p.start)) && p.page !in RingOf(h.v)
          && PageOk(s.rb.mem, p) && Ended(s.rb.mem, p)
          && s.rb.r.off == DATA)
  }

  // The same pages in another order.
  ghost predicate SamePages(a: seq<Page>, b: seq<Page>) {
    |a| == |b| && forall p :: p in a <==> p in b
  }

  lemma DroppedSame(v: View)
    requires v.region != []
    ensures SamePages(RingOf(FirstDropped(v)), RingOf(v))
  {
    assert RingOf(v) == [v.region[0].page] + (Pages(v.region[1..]) + v.free);
    assert RingOf(FirstDropped(v)) == (Pages(v.region[1..]) + v.free) + [v.region[0].page];
  }

  lemma TurnedSame(v: View)
    requires v.free != []
    ensures RingOf(OnNewPage(v)) == RingOf(v)
  {
  }

  lemma AppendedSame(v: View, e: Entry)
    requires v.region != []
    ensures RingOf(Appended(v, e)) == RingOf(v)
  {
  }

  lemma OpenedSame(v: View, circular: bool, size: int, id: nat)
    requires v.region != [] && |RingOf(v)| >= 2
    ensures var o := Opened(v, circular, size, id);
            o.Some? ==> o.value.region != [] && SamePages(RingOf(o.value), RingOf(v))
  {
    if !Room(v, size) && (v.free != [] || circular) {
      DroppedSame(v);
      var v0 := if v.free == [] then FirstDropped(v) else v;
      TurnedSame(v0);
      AppendedSame(OnNewPage(v0), PageBegin(id));
    }
  }

  lemma EmptiedSame(v: View)
    requires v.region != []
    ensures SamePages(RingOf(Emptied(v)), RingOf(v))
  {
    var last := |v.region| - 1;
    var before, page := Pages(v.region[..last]), v.region[last].page;
    assert RingOf(v) == before + ([page] + v.free);
    assert RingOf(Emptied(v)) == ([page] + v.free) + before;
  }

  lemma GivenSame(v: View, page: Page)
    requires v.region != []
    ensures SamePages(RingOf(PutBackEmpty(v, page)), [page] + RingOf(v))
  {
    var last := |v.region| - 1;
    var before, cur := Pages(v.region[..last]), v.region[last].page;
    assert RingOf(v) == before + [cur] + v.free;
    if EndOf(Current(v)) == DATA {
      assert RingOf(PutBackEmpty(v, page)) == before + [page] + ([cur] + v.free);
    } else {
      assert RingOf(PutBackEmpty(v, page)) == before + [cur] + ([page] + v.free);
    }
  }

  /** A page out of the ring keeps what it holds while the ring is written. */
  lemma OutKept(mem: map<Addr, Entry>, p: PageLog, a: Addr, e: Entry)
    requires PageOk(mem, p) && Ended(mem, p) && a.page != p.page
    ensures PageOk(Store(mem, a, e), p) && Ended(Store(mem, a, e), p)
  {
    CellsKept(mem, p.page, p.start, p.entries, a, e);
  }

  lemma OutKeptByAlloc(rb: Rb, v: View, circular: bool, size: nat, id: nat, p: PageLog)
    requires Rep(rb, v) && p.page !in RingOf(v) && PageOk(rb.mem, p) && Ended(rb.mem, p)
    ensures Links(rb)
    ensures var mem := PageRing.Alloc(rb, circular, size, id).0.mem; PageOk(mem, p) && Ended(mem, p)
    ensures var (rb', at) := PageRing.Alloc(rb, circular, size, id);
            && (rb.r.off == DATA ==> rb'.r.off == DATA)
            && (at.Some? ==> at.value.page in RingOf(v))
  {
    LinksOf(rb, v);
    RingLinks(rb, v);
    var ring, m := RingOf(v), |v.region|;
    assert rb.w.page == ring[m - 1];
    var after := rb.next[rb.w.page];
    assert after == if v.free == [] then ring[0] else ring[m];
    OutKept(rb.mem, p, rb.w, PageEnd);
    OutKept(rb.mem, p, Addr(after, DATA), PageBegin(id));
    OutKept(Store(rb.mem, rb.w, PageEnd), p, Addr(after, DATA), PageBegin(id));
  }

  /** Allocating room for an entry and storing it. */
  function Written(rb: Rb, circular: bool, e: Entry, id: nat): Rb
    requires Links(rb)
  {
    var (rb', at) := PageRing.Alloc(rb, circular, Size(e), id);
    if at.None? then rb' else rb'.(mem := Store(rb'.mem, at.value, e))
  }

  /** The view after the entry is written, the same when there was no room for it. */
  function WrittenView(v: View, circular: bool, e: Entry, id: nat): View
    requires v.region != [] && |RingOf(v)| >= 2
  {
    if Size(e) > DATA_MAX then v
    else
      match Opened(v, circular, Size(e), id)
      case None => v
      case Some(v') => if v'.region == [] then v else Appended(v', e)
  }

  lemma RepShape(rb: Rb, v: View)
    requires Rep(rb, v)
    ensures v.region != [] && |RingOf(v)| >= 2
  {
  }

  lemma AlignedSize(e: Entry)
    ensures Align(Size(e)) == Size(e)
  {
  }

  lemma WriteRep(rb: Rb, v: View, circular: bool, e: Entry, id: nat)
    requires Rep(rb, v) && Record(e)
    ensures Links(rb) && Rep(Written(rb, circular, e, id), WrittenView(v, circular, e, id))
  {
    LinksOf(rb, v);
    RepShape(rb, v);
    hide Rep, Opened, Appended, RingOf, SamePages, Store, Linked, Align, Size;
    AlignedSize(e);
    if Size(e) <= DATA_MAX {
      AllocOpens(rb, v, circular, Size(e), id);
      OpenedSame(v, circular, Size(e), id);
      hide PageRing.Alloc;
      var (rb', at) := PageRing.Alloc(rb, circular, Size(e), id);
      var o := Opened(v, circular, Size(e), id);
      if o.Some? {
        EntryStored(rb'.(w := at.value), o.value, e);
      }
    }
  }

  lemma WrittenSame(v: View, circular: bool, e: Entry, id: nat)
    requires v.region != [] && |RingOf(v)| >= 2
    ensures SamePages(RingOf(WrittenView(v, circular, e, id)), RingOf(v))
  {
    var o := Opened(v, circular, Size(e), id);
    OpenedSame(v, circular, Size(e), id);
    if o.Some? {
      AppendedSame(o.value, e);
    }
  }

  lemma WriteOut(rb: Rb, v: View, circular: bool, e: Entry, id: nat, p: PageLog)
    requires Rep(rb, v) && p.page !in RingOf(v) && PageOk(rb.mem, p) && Ended(rb.mem, p) && rb.r.off == DATA
    ensures Links(rb)
    ensures var rb' := Written(rb, circular, e, id); PageOk(rb'.mem, p) && Ended(rb'.mem, p) && rb'.r.off == DATA
  {
    OutKeptByAlloc(rb, v, circular, Size(e), id, p);
    var (rb', at) := PageRing.Alloc(rb, circular, Size(e), id);
    if at.Some? {
      OutKept(rb'.mem, p, at.value, e);
    }
  }

  lemma WriteKeeps(circular: bool, s: System, h: Held, e: Entry, id: nat, pages: set<Page>)
    requires Good(s, h, pages) && Record(e)
    ensures Links(s.rb) && Good(Do(circular, s, Write(e, id)), Effect(circular, h, Write(e, id)), pages)
  {
    WriteRep(s.rb, h.v, circular, e, id);
    WrittenSame(h.v, circular, e, id);
    hide WrittenView, Written;
    if h.out.Some? {
      WriteOut(s.rb, h.v, circular, e, id, h.out.value);
    }
  }

  lemma AbandonKeeps(circular: bool, s: System, h: Held, size: nat, id: nat, pages: set<Page>)
    requires Good(s, h, pages)
    ensures Links(s.rb) && Good(Do(circular, s, Abandon(size, id)), Effect(circular, h, Abandon(size, id)), pages)
  {
    LinksOf(s.rb, h.v);
    if Align(size) <= DATA_MAX {
      ReleaseGivesBack(s.rb, h.v, circular, size, id);
      DroppedSame(h.v);
      if h.out.Some? {
        OutKeptByAlloc(s.rb, h.v, circular, size, id, h.out.value);
      }
    }
  }

  lemma TakeKeeps(circular: bool, s: System, h: Held, pages: set<Page>)
    requires Good(s, h, pages) && h.out.None?
    ensures Links(s.rb) && Good(Do(circular, s, Take), Effect(circular, h, Take), pages)
  {
    LinksOf(s.rb, h.v);
    GetPageTakes(s.rb, h.v);
    if !(|h.v.region| == 1 && h.v.region[0].entries == []) {
      var ring := RingOf(h.v);
      assert ring[0] == s.rb.r.page && ring[1..] == RingOf(Taken(h.v));
      assert forall i :: 0 < i < |ring| ==> ring[i] != ring[0];
    }
  }

  lemma PassKeeps(circular: bool, s: System, h: Held, pages: set<Page>)
    requires Good(s, h, pages) && Enabled(h, Pass)
    ensures Links(s.rb) && s.out.Some? && s.out.value in s.rb.mem
    ensures Good(Do(circular, s, Pass), Effect(circular, h, Pass), pages)
  {
    LinksOf(s.rb, h.v);
  }

  lemma GiveEmptyKeeps(circular: bool, s: System, h: Held, pages: set<Page>)
    requires Good(s, h, pages) && Enabled(h, GiveEmpty)
    ensures Links(s.rb) && s.out.Some? && Good(Do(circular, s, GiveEmpty), Effect(circular, h, GiveEmpty), pages)
  {
    LinksOf(s.rb, h.v);
    PutPageEmpty(s.rb, h.v, s.out.value);
    GivenSame(h.v, h.out.value.page);
  }

  lemma GiveBackKeeps(circular: bool, s: System, h: Held, pages: set<Page>)
    requires Good(s, h, pages) && Enabled(h, GiveBack)
    ensures Links(s.rb) && s.out.Some? && Good(Do(circular, s, GiveBack), Effect(circular, h, GiveBack), pages)
  {
    LinksOf(s.rb, h.v);
    var p := h.out.value;
    PutPageBack(s.rb, h.v, p);
    assert RingOf(h.v.(region := [p] + h.v.region)) == [p.page] + RingOf(h.v);
  }

  /** Every operation keeps: the links form one circle both ways; no page is lost or doubled; the
      entries tile their pages from the data start to `w`, word-aligned, inside the data area;
      and `r` is at the start of its page while a page is out, so that gtp_rb_put_page never
      gives data up. */
  lemma DoKeepsGood(circular: bool, s: System, h: Held, op: Op, pages: set<Page>)
    requires Good(s, h, pages) && Enabled(h, op)
    ensures Links(s.rb) && (op.Pass? || op.GiveEmpty? || op.GiveBack? ==> s.out.Some?)
    ensures op.Pass? ==> s.out.value in s.rb.mem
    ensures Good(Do(circular, s, op), Effect(circular, h, op), pages)
  {
    LinksOf(s.rb, h.v);
    match op
    case Write(e, id) => WriteKeeps(circular, s, h, e, id, pages);
    case Abandon(size, id) => AbandonKeeps(circular, s, h, size, id, pages);
    case Clear =>
      ResetEmpties(s.rb, h.v);
      EmptiedSame(h.v);
    case Take => TakeKeeps(circular, s, h, pages);
    case Pass => PassKeeps(circular, s, h, pages);
    case GiveEmpty => GiveEmptyKeeps(circular, s, h, pages);
    case GiveBack => GiveBackKeeps(circular, s, h, pages);
  }

  /** The states a sequence of operations leads to. */
  ghost predicate Leads(circular: bool, s: System, h: Held, ops: seq<Op>, s': System, h': Held)
    decreases |ops|
  {
    if ops == [] then s == s' && h == h'
    else
      && h.v.region != [] && |RingOf(h.v)| >= 2 && Enabled(h, ops[0])
      && Links(s.rb) && (ops[0].Pass? || ops[0].GiveEmpty? || ops[0].GiveBack? ==> s.out.Some?)
      && (ops[0].Pass? ==> s.out.value in s.rb.mem)
      && Leads(circular, Do(circular, s, ops[0]), Effect(circular, h, ops[0]), ops[1..], s', h')
  }

  /** Over every run from a ring just built: nothing is lost, and `w` stays aligned in its page. */
  lemma {:induction false} RunsKeepGood(circular: bool, s: System, h: Held, ops: seq<Op>, s': System, h': Held,
                                        pages: set<Page>)
    requires Good(s, h, pages) && Leads(circular, s, h, ops, s', h')
    ensures Good(s', h', pages)
    ensures DATA <= s'.rb.w.off <= END && s'.rb.w.off % 4 == 0
    decreases |ops|
  {
    if ops == [] {
      assert PageOk(s.rb.mem, Current(h.v));
    } else {
      DoKeepsGood(circular, s, h, ops[0], pages);
      RunsKeepGood(circular, Do(circular, s, ops[0]), Effect(circular, h, ops[0]), ops[1..], s', h', pages);
    }
  }

  /** A ring of three pages or more, just built, is a good start. */
  lemma FreshIsGood(rb: Rb, ring: seq<Page>)
    requires |ring| >= 3 && Rep(rb, View([PageLog(ring[0], DATA, [])], ring[1..]))
    ensures Good(System(rb, None), Held(View([PageLog(ring[0], DATA, [])], ring[1..]), None), PageSet(ring))
  {
    var v := View([PageLog(ring[0], DATA, [])], ring[1..]);
    assert RingOf(v) == ring;
    var pages := PageSet(ring);
    DistinctCount(ring);
    assert Conserved(Held(v, None), pages);
    assert Good(System(rb, None), Held(v, None), pages);
  }

  function PageSet(ring: seq<Page>): set<Page> {
    set p | p in ring
  }

  lemma {:induction false} DistinctCount(ring: seq<Page>)
    requires Distinct(ring)
    ensures |PageSet(ring)| == |ring|
  {
    if ring == [] {
      assert PageSet(ring) == {};
    } else {
      DistinctCount(ring[1..]);
      assert PageSet(ring) == PageSet(ring[1..]) + {ring[0]};
      assert ring[0] !in ring[1..];
    }
  }
}
