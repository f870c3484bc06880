/**
 The page ring of gtp_rb.c: one CPU's pages linked in a circle through words inside the pages,
 written at `w` and read from `r`.  An address is a page and an offset.  64-bit build, 4096-byte
 pages: a page keeps its prev link at 0, its data from 8 and its next link at 4088.
 */
module PageRing {
  import opened Options

  const DATA := 8          // GTP_RB_DATA
  const END := 4088        // GTP_RB_END
  const FID_SIZE := 4
  const DATA_MAX := 4068   // GTP_RB_DATA_MAX: the data area less an identifier and a frame id
  const BEGIN_SIZE := 12   // GTP_FRAME_PAGE_BEGIN_SIZE
  const MEM_SIZE := 20     // GTP_FRAME_MEM_SIZE

  type Page = nat
  type Octet = x: int | 0 <= x < 256

  datatype Addr = Addr(page: Page, off: int)

  /** The records of a page, by their frame identifier. */
  datatype Entry =
    | Head(id: nat, num: nat, prev: Option<Addr>)
    | Reg(regs: seq<Octet>)
    | Mem(addr: nat, data: seq<Octet>)
    | Var(num: nat, val: int)
    | PageBegin(id: nat)
    | PageEnd

  // FRAME_ALIGN.
  function Align(n: int): (r: int)
    ensures r % 4 == 0 && n <= r < n + 4
  {
    (n + 3) / 4 * 4
  }

  /** The bytes an entry takes; the register block of x86-64 has 168. */
  function Size(e: Entry): (n: int)
    ensures n >= FID_SIZE && n % 4 == 0
  {
    match e
    case Head(_, _, _) => 28
    case Reg(_) => 172
    case Mem(_, data) => Align(MEM_SIZE + |data|)
    case Var(_, _) => 20
    case PageBegin(_) => BEGIN_SIZE
    case PageEnd => FID_SIZE
  }

  // Entries a frame is made of.
  predicate Record(e: Entry) {
    !e.PageBegin? && !e.PageEnd?
  }

  /** Storing an entry.  What a page held from there on is forgotten: it is overwritten, or left
      from an earlier lap, and nothing may rely on it. */
  function Store(mem: map<Addr, Entry>, a: Addr, e: Entry): map<Addr, Entry> {
    (map x | x in mem && !(x.page == a.page && x.off >= a.off) :: mem[x])[a := e]
  }

  datatype Rb = Rb(next: map<Page, Page>, prev: map<Page, Page>, mem: map<Addr, Entry>, w: Addr, r: Addr)

  // ----- the circle of pages -----

  ghost predicate Distinct(ring: seq<Page>) {
    forall i, j :: 0 <= i < j < |ring| ==> ring[i] != ring[j]
  }

  function After(ring: seq<Page>, i: nat): Page
    requires i < |ring|
  {
    if i + 1 < |ring| then ring[i + 1] else ring[0]
  }

  /** The links go around `ring`, forwards by `next` and backwards by `prev`. */
  ghost predicate Linked(next: map<Page, Page>, prev: map<Page, Page>, ring: seq<Page>) {
    ring != [] && Distinct(ring) && forall i :: 0 <= i < |ring| ==> LinkedAt(next, prev, ring, i)
  }

  lemma Rotated(next: map<Page, Page>, prev: map<Page, Page>, ring: seq<Page>)
    requires Linked(next, prev, ring)
    ensures Linked(next, prev, ring[1..] + [ring[0]])
  {
    var turned := ring[1..] + [ring[0]];
    forall i | 0 <= i < |turned|
      ensures LinkedAt(next, prev, turned, i)
    {
      var j := if i + 1 < |ring| then i + 1 else 0;
      assert turned[i] == ring[j] && After(turned, i) == After(ring, j) && LinkedAt(next, prev, ring, j);
    }
  }

  /** Taking the first page out closes the circle over the rest. */
  lemma Unlinked(next: map<Page, Page>, prev: map<Page, Page>, ring: seq<Page>)
    requires Linked(next, prev, ring) && |ring| >= 2
    ensures ring[0] in prev && prev[ring[0]] == ring[|ring| - 1]
    ensures ring[0] in next && next[ring[0]] == ring[1]
    ensures Linked(next[ring[|ring| - 1] := ring[1]], prev[ring[1] := ring[|ring| - 1]], ring[1..])
  {
    var n := |ring|;
    assert LinkedAt(next, prev, ring, n - 1) && LinkedAt(next, prev, ring, 0);
    var rest := ring[1..];
    var next', prev' := next[ring[n - 1] := ring[1]], prev[ring[1] := ring[n - 1]];
    forall i | 0 <= i < |rest|
      ensures LinkedAt(next', prev', rest, i)
    {
      assert rest[i] == ring[i + 1] && LinkedAt(next, prev, ring, i + 1);
      assert After(rest, i) == if i + 2 < n then After(ring, i + 1) else ring[1];
    }
  }

  function LinkNext(next: map<Page, Page>, before: Page, page: Page, after: Page): map<Page, Page> {
    next[before := page][page := after]
  }

  function LinkPrev(prev: map<Page, Page>, before: Page, page: Page, after: Page): map<Page, Page> {
    prev[after := page][page := before]
  }

  function Insert(ring: seq<Page>, i: nat, page: Page): (r: seq<Page>)
    requires i <= |ring|
    ensures |r| == |ring| + 1 && r[i] == page
    ensures forall j :: 0 <= j < i ==> r[j] == ring[j]
    ensures forall j :: i < j < |r| ==> r[j] == ring[j - 1]
  {
    ring[..i] + [page] + ring[i..]
  }

  lemma InsertDistinct(ring: seq<Page>, i: nat, page: Page)
    requires Distinct(ring) && i <= |ring| && page !in ring
    ensures Distinct(Insert(ring, i, page))
  {
    hide Insert;
    var r := Insert(ring, i, page);
    forall j, k | 0 <= j < k < |r|
      ensures r[j] != r[k]
    {
    }
  }

  /** Putting a page in before position i, or at the end. */
  lemma Inserted(next: map<Page, Page>, prev: map<Page, Page>, ring: seq<Page>, i: nat, page: Page)
    requires Linked(next, prev, ring) && 0 < i <= |ring| && page !in ring
    ensures Linked(LinkNext(next, ring[i - 1], page, After(ring, i - 1)),
                   LinkPrev(prev, ring[i - 1], page, After(ring, i - 1)),
                   Insert(ring, i, page))
  {
    var before, after := ring[i - 1], After(ring, i - 1);
    var ring' := Insert(ring, i, page);
    InsertDistinct(ring, i, page);
    hide Insert;
    forall j | 0 <= j < |ring'|
      ensures LinkedAt(LinkNext(next, before, page, after), LinkPrev(prev, before, page, after), ring', j)
    {
      if j != i {
        var k := if j < i then j else j - 1;
        AfterOnce(ring, k, i - 1);
        assert After(ring', j) == if j == i - 1 then page else After(ring, k);
        assert LinkedAt(next, prev, ring, k);
      }
    }
  }

  predicate LinkedAt(next: map<Page, Page>, prev: map<Page, Page>, ring: seq<Page>, i: nat)
    requires i < |ring|
  {
    && ring[i] in next && ring[i] in prev && next[ring[i]] == After(ring, i)
    && After(ring, i) in prev && prev[After(ring, i)] == ring[i]
  }

  lemma AfterOnce(ring: seq<Page>, j: nat, k: nat)
    requires Distinct(ring) && j < |ring| && k < |ring|
    ensures After(ring, j) == After(ring, k) <==> j == k
    ensures ring[j] == ring[k] <==> j == k
  {
  }

  lemma RotatedBack(next: map<Page, Page>, prev: map<Page, Page>, ring: seq<Page>, page: Page)
    requires Linked(next, prev, ring + [page])
    ensures Linked(next, prev, [page] + ring)
  {
    var turned, ring' := [page] + ring, ring + [page];
    forall i | 0 <= i < |turned|
      ensures LinkedAt(next, prev, turned, i)
    {
      var j := if i == 0 then |ring| else i - 1;
      assert turned[i] == ring'[j] && After(turned, i) == After(ring', j) && LinkedAt(next, prev, ring', j);
    }
    forall i, j | 0 <= i < j < |turned|
      ensures turned[i] != turned[j]
    {
      assert ring'[if i == 0 then |ring| else i - 1] != ring'[j - 1];
    }
  }

  // ----- what the pages hold -----

  /** A page of the written region: the entries from `start` on. */
  datatype PageLog = PageLog(page: Page, start: int, entries: seq<Entry>)

  /** The pages from `r` to `w` with what they hold, and the other pages of the ring in order. */
  datatype View = View(region: seq<PageLog>, free: seq<Page>)

  function EndOff(start: int, entries: seq<Entry>): (off: int)
    ensures off >= start
    ensures start % 4 == 0 ==> off % 4 == 0
    decreases |entries|
  {
    if entries == [] then start else EndOff(start + Size(entries[0]), entries[1..])
  }

  function EndOf(p: PageLog): int {
    EndOff(p.start, p.entries)
  }

  predicate Cells(mem: map<Addr, Entry>, page: Page, start: int, entries: seq<Entry>)
    decreases |entries|
  {
    entries == [] ||
    (&& Addr(page, start) in mem && mem[Addr(page, start)] == entries[0] && !entries[0].PageEnd?
     && Cells(mem, page, start + Size(entries[0]), entries[1..]))
  }

  predicate PageOk(mem: map<Addr, Entry>, p: PageLog) {
    DATA <= p.start && p.start % 4 == 0 && EndOf(p) <= END && Cells(mem, p.page, p.start, p.entries)
  }

  /** A page the writer has left: nothing more fits, or an end mark follows the entries. */
  predicate Ended(mem: map<Addr, Entry>, p: PageLog) {
    EndOf(p) == END || (Addr(p.page, EndOf(p)) in mem && mem[Addr(p.page, EndOf(p))] == PageEnd)
  }

  function Pages(region: seq<PageLog>): (s: seq<Page>)
    ensures |s| == |region| && forall i :: 0 <= i < |s| ==> s[i] == region[i].page
  {
    seq(|region|, i requires 0 <= i < |region| => region[i].page)
  }

  function RingOf(v: View): seq<Page> {
    Pages(v.region) + v.free
  }

  function Current(v: View): PageLog
    requires v.region != []
  {
    v.region[|v.region| - 1]
  }

  /** The ring buffer holds the view. */
  ghost predicate Rep(rb: Rb, v: View) {
    && v.region != [] && |RingOf(v)| >= 2
    && Linked(rb.next, rb.prev, RingOf(v))
    && rb.r == Addr(v.region[0].page, v.region[0].start)
    && rb.w == Addr(Current(v).page, EndOf(Current(v)))
    && (forall k :: 0 <= k < |v.region| ==> PageOk(rb.mem, v.region[k]))
    && (forall k :: 0 < k < |v.region| ==> v.region[k].start == DATA)
    && (forall k :: 0 <= k < |v.region| - 1 ==> Ended(rb.mem, v.region[k]))
  }

  lemma {:induction false} CellsKept(mem: map<Addr, Entry>, page: Page, start: int, entries: seq<Entry>, a: Addr, e: Entry)
    requires Cells(mem, page, start, entries) && (a.page != page || a.off >= EndOff(start, entries))
    ensures Cells(Store(mem, a, e), page, start, entries)
    decreases |entries|
  {
    if entries != [] {
      assert Addr(page, start) != a && Addr(page, start) in Store(mem, a, e);
      CellsKept(mem, page, start + Size(entries[0]), entries[1..], a, e);
    }
  }

  lemma {:induction false} CellsGrow(mem: map<Addr, Entry>, page: Page, start: int, entries: seq<Entry>, e: Entry)
    requires Cells(mem, page, start, entries) && !e.PageEnd?
    requires var a := Addr(page, EndOff(start, entries)); a in mem && mem[a] == e
    ensures Cells(mem, page, start, entries + [e])
    ensures EndOff(start, entries + [e]) == EndOff(start, entries) + Size(e)
    decreases |entries|
  {
    var grown := entries + [e];
    if entries != [] {
      assert grown[1..] == entries[1..] + [e];
      CellsGrow(mem, page, start + Size(entries[0]), entries[1..], e);
    } else {
      assert grown[1..] == [];
    }
  }

  // ----- allocation -----

  function Appended(v: View, e: Entry): View
    requires v.region != []
  {
    var last := |v.region| - 1;
    v.(region := v.region[last := v.region[last].(entries := v.region[last].entries + [e])])
  }

  function OnNewPage(v: View): View
    requires v.free != []
  {
    View(v.region + [PageLog(v.free[0], DATA, [])], v.free[1..])
  }

  function FirstDropped(v: View): View
    requires v.region != []
  {
    View(v.region[1..], v.free + [v.region[0].page])
  }

  predicate Room(v: View, size: int)
    requires v.region != []
  {
    EndOf(Current(v)) + size <= END
  }

  /** The view at the moment gtp_rb_alloc hands out room: on a new page, begun with the frame's id
      when the frame continues, if the current one is too short; the oldest page is discarded for
      it in circular mode and the allocation fails otherwise. */
  function Opened(v: View, circular: bool, size: int, id: nat): Option<View>
    requires v.region != [] && |RingOf(v)| >= 2
  {
    if Room(v, size) then Some(v)
    else if v.free == [] && !circular then None
    else
      var v1 := OnNewPage(if v.free == [] then FirstDropped(v) else v);
      Some(if id == 0 then v1 else Appended(v1, PageBegin(id)))
  }

  /** The view after the room is given back. */
  function GivenBack(v: View, circular: bool, size: int): View
    requires v.region != []
  {
    if !Room(v, size) && v.free == [] && circular then FirstDropped(v) else v
  }

  /** gtp_rb_alloc. */
  function Alloc(rb: Rb, circular: bool, size: nat, id: nat): (Rb, Option<Addr>)
    requires rb.w.page in rb.next && rb.r.page in rb.next
  {
    var size := Align(size);
    if size > DATA_MAX then (rb, None)
    else if rb.w.off + size <= END then (rb.(w := Addr(rb.w.page, rb.w.off + size)), Some(rb.w))
    else
      var mem := if END - rb.w.off >= FID_SIZE then Store(rb.mem, rb.w, PageEnd) else rb.mem;
      if rb.next[rb.w.page] == rb.r.page && !circular then (rb.(mem := mem), None)
      else
        var r := if rb.next[rb.w.page] == rb.r.page then Addr(rb.next[rb.r.page], DATA) else rb.r;
        var at := Addr(rb.next[rb.w.page], DATA);
        var mem' := if id == 0 then mem else Store(mem, at, PageBegin(id));
        var at' := if id == 0 then at else Addr(at.page, DATA + Align(BEGIN_SIZE));
        (rb.(mem := mem', r := r, w := Addr(at'.page, at'.off + size)), Some(at'))
  }

  lemma RingLinks(rb: Rb, v: View)
    requires Rep(rb, v)
    ensures rb.w.page in rb.next && rb.r.page in rb.next
    ensures rb.next[rb.w.page] == if v.free == [] then rb.r.page else v.free[0]
    ensures rb.next[rb.w.page] == rb.r.page <==> v.free == []
    ensures rb.next[rb.r.page] == if |v.region| > 1 then v.region[1].page else v.free[0]
  {
    var ring, m := RingOf(v), |v.region|;
    assert ring[m - 1] == rb.w.page && ring[0] == rb.r.page;
    assert LinkedAt(rb.next, rb.prev, ring, m - 1) && LinkedAt(rb.next, rb.prev, ring, 0);
  }

  /** Marking the end of the current page changes nothing the view says. */
  lemma EndMarked(rb: Rb, v: View)
    requires Rep(rb, v) && rb.w.off + FID_SIZE <= END
    ensures Rep(rb.(mem := Store(rb.mem, rb.w, PageEnd)), v)
    ensures Ended(Store(rb.mem, rb.w, PageEnd), Current(v))
  {
    StoreAtEnd(rb, v, PageEnd);
  }

  /** Writing at `w` leaves every page of the region as it was. */
  lemma StoreAtEnd(rb: Rb, v: View, e: Entry)
    requires Rep(rb, v)
    ensures forall k :: 0 <= k < |v.region| ==> PageOk(Store(rb.mem, rb.w, e), v.region[k])
    ensures forall k :: 0 <= k < |v.region| - 1 ==> Ended(Store(rb.mem, rb.w, e), v.region[k])
  {
    forall k | 0 <= k < |v.region|
      ensures PageOk(Store(rb.mem, rb.w, e), v.region[k])
      ensures k < |v.region| - 1 ==> Ended(Store(rb.mem, rb.w, e), v.region[k])
    {
      var p := v.region[k];
      assert PageOk(rb.mem, p);
      if k < |v.region| - 1 {
        assert RingOf(v)[k] != RingOf(v)[|v.region| - 1];
        assert Ended(rb.mem, p);
      }
      CellsKept(rb.mem, p.page, p.start, p.entries, rb.w, e);
    }
  }

  /** Writing an entry into the room at `w`. */
  lemma EntryStored(rb: Rb, v: View, e: Entry)
    requires Rep(rb, v) && !e.PageEnd? && rb.w.off + Size(e) <= END
    ensures Rep(rb.(mem := Store(rb.mem, rb.w, e), w := Addr(rb.w.page, rb.w.off + Size(e))), Appended(v, e))
  {
    var mem := Store(rb.mem, rb.w, e);
    var last := |v.region| - 1;
    var v', p := Appended(v, e), v.region[last];
    StoreAtEnd(rb, v, e);
    assert PageOk(mem, p);
    CellsGrow(mem, p.page, p.start, p.entries, e);
    assert RingOf(v') == RingOf(v);
    forall k | 0 <= k < |v'.region|
      ensures PageOk(mem, v'.region[k])
      ensures k < |v'.region| - 1 ==> Ended(mem, v'.region[k])
    {
      if k < last {
        assert v'.region[k] == v.region[k] && PageOk(mem, v.region[k]) && Ended(mem, v.region[k]);
      }
    }
  }

  /** The writer moves on to a free page. */
  lemma PageTurned(rb: Rb, v: View)
    requires Rep(rb, v) && v.free != [] && Ended(rb.mem, Current(v))
    ensures Rep(rb.(w := Addr(v.free[0], DATA)), OnNewPage(v))
  {
    var v' := OnNewPage(v);
    assert RingOf(v') == RingOf(v);
    forall k | 0 <= k < |v'.region|
      ensures PageOk(rb.mem, v'.region[k])
      ensures k < |v'.region| - 1 ==> Ended(rb.mem, v'.region[k])
    {
      if k < |v.region| {
        assert v'.region[k] == v.region[k] && PageOk(rb.mem, v.region[k]);
      }
    }
  }

  /** The oldest page is discarded. */
  lemma PageDropped(rb: Rb, v: View)
    requires Rep(rb, v) && |v.region| >= 2
    ensures Rep(rb.(r := Addr(v.region[1].page, DATA)), FirstDropped(v))
  {
    var v' := FirstDropped(v);
    assert RingOf(v') == RingOf(v)[1..] + [RingOf(v)[0]];
    Rotated(rb.next, rb.prev, RingOf(v));
  }

  // ----- allocation keeps the view -----

  /** What gtp_rb_alloc achieves on every state: room for `size` bytes inside one page, opened as
      the view says; or, in non-circular mode with the ring full, nothing but an end mark; or, for a
      size no page can take, nothing at all. */
  lemma AllocOpens(rb: Rb, v: View, circular: bool, size: nat, id: nat)
    requires Rep(rb, v)
    ensures rb.w.page in rb.next && rb.r.page in rb.next
    ensures var (rb', at) := Alloc(rb, circular, size, id);
            if Align(size) > DATA_MAX then at.None? && rb' == rb
            else
              match Opened(v, circular, Align(size), id)
              case None => at.None? && Rep(rb', v)
              case Some(v') =>
                && at.Some? && Rep(rb'.(w := at.value), v')
                && rb'.w == Addr(at.value.page, at.value.off + Align(size)) && rb'.w.off <= END
  {
    RingLinks(rb, v);
    var size := Align(size);
    if size <= DATA_MAX && rb.w.off + size > END {
      var rb1 := if END - rb.w.off >= FID_SIZE then rb.(mem := Store(rb.mem, rb.w, PageEnd)) else rb;
      LeavePage(rb, v);
      assert Rep(rb1, v) && Ended(rb1.mem, Current(v));
      if v.free != [] {
        TurnPage(rb1, v, id);
      } else if circular {
        PageDropped(rb1, v);
        TurnPage(rb1.(r := Addr(v.region[1].page, DATA)), FirstDropped(v), id);
      }
    }
  }

  /** Every page of the ring lies between r's page and w's. */
  ghost predicate AllHeld(v: View) {
    forall p :: p in RingOf(v) ==> p in Pages(v.region)
  }

  lemma AllHeldNoneFree(v: View)
    requires Distinct(RingOf(v))
    ensures AllHeld(v) <==> v.free == []
  {
    if v.free != [] {
      var ring, p := RingOf(v), v.free[0];
      assert ring[|v.region|] == p;
      assert forall i :: 0 <= i < |v.region| ==> Pages(v.region)[i] == ring[i] != p;
      assert p in ring && p !in Pages(v.region);
    } else {
      assert RingOf(v) == Pages(v.region);
    }
  }

  /** When gtp_rb_alloc fails: for a size no page can take; and, not in circular mode, when what is left
      of w's page is too short and the next page is r's, so that no page is left between them. */
  lemma AllocFails(rb: Rb, v: View, circular: bool, size: nat, id: nat)
    requires Rep(rb, v)
    ensures rb.w.page in rb.next && rb.r.page in rb.next
    ensures Alloc(rb, circular, size, id).1.None? <==>
              Align(size) > 4068 || (!circular && rb.w.off + Align(size) > 4088 && rb.next[rb.w.page] == rb.r.page)
    ensures rb.next[rb.w.page] == rb.r.page <==> AllHeld(v)
    ensures Opened(v, circular, Align(size), id).None? <==> !circular && rb.w.off + Align(size) > 4088 && AllHeld(v)
  {
    RingLinks(rb, v);
    AllHeldNoneFree(v);
  }

  /** Where the room is when it does not: at w if it fits there, else on the next page, behind the record
      that begins the page if the frame goes on; r moves only off a page that is taken for it. */
  lemma AllocPlace(rb: Rb, v: View, circular: bool, size: nat, id: nat)
    requires Rep(rb, v)
    ensures rb.w.page in rb.next && rb.r.page in rb.next
    ensures var (rb', at) := Alloc(rb, circular, size, id);
            var fits, taken := rb.w.off + Align(size) <= 4088, rb.next[rb.w.page] == rb.r.page;
            && rb'.next == rb.next && rb'.prev == rb.prev
            && (at.None? ==> rb'.w == rb.w && rb'.r == rb.r)
            && (at.Some? ==>
                  && at.value == (if fits then rb.w else Addr(rb.next[rb.w.page], if id == 0 then 8 else 20))
                  && rb'.w == Addr(at.value.page, at.value.off + Align(size))
                  && rb'.r == (if fits || !taken then rb.r else Addr(rb.next[rb.r.page], 8))
                  && (!fits && id != 0 ==> Addr(at.value.page, 8) in rb'.mem && rb'.mem[Addr(at.value.page, 8)] == PageBegin(id)))
  {
    hide Rep;
    RingLinks(rb, v);
  }

  lemma LeavePage(rb: Rb, v: View)
    requires Rep(rb, v)
    ensures var rb' := if END - rb.w.off >= FID_SIZE then rb.(mem := Store(rb.mem, rb.w, PageEnd)) else rb;
            Rep(rb', v) && Ended(rb'.mem, Current(v))
  {
    if END - rb.w.off >= FID_SIZE {
      EndMarked(rb, v);
    } else {
      assert PageOk(rb.mem, Current(v));
    }
  }

  /** A page is turned and, for a frame that goes on, begun with its id. */
  lemma TurnPage(rb: Rb, v: View, id: nat)
    requires Rep(rb, v) && v.free != [] && Ended(rb.mem, Current(v))
    ensures var at := Addr(v.free[0], DATA);
            var v' := OnNewPage(v);
            if id == 0 then Rep(rb.(w := at), v')
            else Rep(rb.(mem := Store(rb.mem, at, PageBegin(id)), w := Addr(at.page, DATA + BEGIN_SIZE)),
                     Appended(v', PageBegin(id)))
  {
    PageTurned(rb, v);
    if id != 0 {
      EntryStored(rb.(w := Addr(v.free[0], DATA)), OnNewPage(v), PageBegin(id));
    }
  }

  /** GTP_RB_RELEASE: setting `w` back gives a state whose view is the one before the allocation,
      less the page discarded for it. */
  lemma ReleaseGivesBack(rb: Rb, v: View, circular: bool, size: nat, id: nat)
    requires Rep(rb, v) && Align(size) <= DATA_MAX
    ensures rb.w.page in rb.next && rb.r.page in rb.next
    ensures Rep(Alloc(rb, circular, size, id).0.(w := rb.w), GivenBack(v, circular, Align(size)))
  {
    RingLinks(rb, v);
    if rb.w.off + Align(size) > END {
      var rb1 := if END - rb.w.off >= FID_SIZE then rb.(mem := Store(rb.mem, rb.w, PageEnd)) else rb;
      LeavePage(rb, v);
      if v.free == [] && circular {
        PageDropped(rb1, v);
        if id != 0 {
          StoreElsewhere(rb1.(r := Addr(v.region[1].page, DATA)), FirstDropped(v), Addr(v.region[0].page, DATA),
                         PageBegin(id));
        }
      } else if v.free != [] && id != 0 {
        StoreElsewhere(rb1, v, Addr(v.free[0], DATA), PageBegin(id));
      }
    }
  }

  /** Writing to a free page changes nothing the view says. */
  lemma StoreElsewhere(rb: Rb, v: View, a: Addr, e: Entry)
    requires Rep(rb, v) && a.page in v.free
    ensures Rep(rb.(mem := Store(rb.mem, a, e)), v)
  {
    var f :| 0 <= f < |v.free| && v.free[f] == a.page;
    forall k | 0 <= k < |v.region|
      ensures PageOk(Store(rb.mem, a, e), v.region[k])
      ensures k < |v.region| - 1 ==> Ended(Store(rb.mem, a, e), v.region[k])
    {
      var p := v.region[k];
      assert RingOf(v)[k] != RingOf(v)[|v.region| + f];
      assert PageOk(rb.mem, p);
      CellsKept(rb.mem, p.page, p.start, p.entries, a, e);
    }
  }

  // ----- taking a page out of the ring and putting it back -----

  predicate Links(rb: Rb) {
    && rb.w.page in rb.next && rb.w.page in rb.prev && rb.r.page in rb.next && rb.r.page in rb.prev
  }

  /** gtp_rb_get_page. */
  function GetPage(rb: Rb): (Rb, Option<Addr>)
    requires Links(rb)
  {
    if rb.r == rb.w then (rb, None)
    else
      var alone := rb.r.page == rb.w.page;
      var mem := if alone && END - rb.w.off >= FID_SIZE then Store(rb.mem, rb.w, PageEnd) else rb.mem;
      var w := if alone then Addr(rb.next[rb.w.page], DATA) else rb.w;
      var before, after := rb.prev[rb.r.page], rb.next[rb.r.page];
      (Rb(rb.next[before := after], rb.prev[after := before], mem, w, Addr(after, DATA)), Some(rb.r))
  }

  function Spliced(rb: Rb, before: Page, page: Page, after: Page): Rb {
    rb.(next := LinkNext(rb.next, before, page, after), prev := LinkPrev(rb.prev, before, page, after))
  }

  /** gtp_rb_put_page. */
  function PutPage(rb: Rb, page: Addr, isEmpty: bool): Rb
    requires Links(rb)
  {
    if isEmpty then
      var first := Addr(page.page, DATA);
      if rb.w.off == DATA then
        Spliced(rb, rb.prev[rb.w.page], page.page, rb.w.page).(r := if rb.r == rb.w then first else rb.r, w := first)
      else
        Spliced(rb, rb.w.page, page.page, rb.next[rb.w.page])
    else if rb.r.off == DATA then
      Spliced(rb, rb.prev[rb.r.page], page.page, rb.r.page).(r := page)
    else
      Spliced(rb, rb.r.page, page.page, rb.next[rb.r.page]).(r := page)
  }

  /** gtp_rb_reset. */
  function Reset(rb: Rb): Rb {
    rb.(w := Addr(rb.w.page, DATA), r := Addr(rb.w.page, DATA))
  }

  /** The view once the oldest page is out, and what that page holds. */
  function Taken(v: View): View
    requires v.region != [] && |RingOf(v)| >= 2
  {
    var v' := if |v.region| == 1 then OnNewPage(v) else v;
    v'.(region := v'.region[1..])
  }

  function PutBackEmpty(v: View, page: Page): View
    requires v.region != []
  {
    if EndOf(Current(v)) == DATA then
      View(v.region[|v.region| - 1 := PageLog(page, DATA, [])], [Current(v).page] + v.free)
    else v.(free := [page] + v.free)
  }

  function Emptied(v: View): View
    requires v.region != []
  {
    var last := |v.region| - 1;
    View([PageLog(v.region[last].page, DATA, [])], v.free + Pages(v.region[..last]))
  }

  lemma LinksOf(rb: Rb, v: View)
    requires Rep(rb, v)
    ensures Links(rb)
    ensures rb.prev[rb.r.page] == RingOf(v)[|RingOf(v)| - 1]
    ensures |v.region| > 1 ==> rb.prev[rb.w.page] == v.region[|v.region| - 2].page
  {
    var ring, n, m := RingOf(v), |RingOf(v)|, |v.region|;
    assert LinkedAt(rb.next, rb.prev, ring, n - 1) && LinkedAt(rb.next, rb.prev, ring, 0);
    assert LinkedAt(rb.next, rb.prev, ring, m - 1);
    if m > 1 {
      assert LinkedAt(rb.next, rb.prev, ring, m - 2);
    }
  }

  /** gtp_rb_get_page takes the oldest page, with everything from `r` on, out of a ring of at
      least three; there is none exactly when the view holds no entry. */
  lemma GetPageTakes(rb: Rb, v: View)
    requires Rep(rb, v) && |RingOf(v)| >= 3
    ensures Links(rb)
    ensures var (rb', page) := GetPage(rb);
            if |v.region| == 1 && v.region[0].entries == [] then page.None? && rb' == rb
            else
              && page == Some(rb.r) && Rep(rb', Taken(v)) && rb'.r.off == DATA
              && RingOf(v) == [rb.r.page] + RingOf(Taken(v))
              && PageOk(rb'.mem, v.region[0]) && Ended(rb'.mem, v.region[0])
  {
    LinksOf(rb, v);
    RingLinks(rb, v);
    var (rb', page) := GetPage(rb);
    if |v.region| == 1 {
      NonEmptyMoves(v.region[0]);
      if v.region[0].entries != [] {
        var rb1 := if END - rb.w.off >= FID_SIZE then rb.(mem := Store(rb.mem, rb.w, PageEnd)) else rb;
        LeavePage(rb, v);
        PageTurned(rb1, v);
        FirstUnlinked(rb1.(w := Addr(v.free[0], DATA)), OnNewPage(v));
      }
    } else {
      assert RingOf(v)[0] != RingOf(v)[|v.region| - 1];
      FirstUnlinked(rb, v);
    }
  }

  lemma NonEmptyMoves(p: PageLog)
    ensures EndOf(p) == p.start <==> p.entries == []
  {
  }

  lemma FirstUnlinked(rb: Rb, v: View)
    requires Rep(rb, v) && |v.region| >= 2 && |RingOf(v)| >= 3
    ensures Links(rb)
    ensures var before, after := rb.prev[rb.r.page], rb.next[rb.r.page];
            Rep(Rb(rb.next[before := after], rb.prev[after := before], rb.mem, rb.w, Addr(after, DATA)),
                v.(region := v.region[1..]))
    ensures RingOf(v) == [rb.r.page] + RingOf(v.(region := v.region[1..]))
  {
    LinksOf(rb, v);
    RingLinks(rb, v);
    Unlinked(rb.next, rb.prev, RingOf(v));
    assert RingOf(v.(region := v.region[1..])) == RingOf(v)[1..];
  }

  /** Putting an emptied page back makes it the next page to write to, or the one being written. */
  lemma PutPageEmpty(rb: Rb, v: View, page: Addr)
    requires Rep(rb, v) && page.page !in RingOf(v)
    ensures Links(rb) && Rep(PutPage(rb, page, true), PutBackEmpty(v, page.page))
  {
    LinksOf(rb, v);
    if rb.w.off == DATA {
      PutPageWritten(rb, v, page);
    } else {
      RingLinks(rb, v);
      var ring, m := RingOf(v), |v.region|;
      Inserted(rb.next, rb.prev, ring, m, page.page);
      assert RingOf(PutBackEmpty(v, page.page)) == Insert(ring, m, page.page);
    }
  }

  /** Nothing is on the page being written: the emptied page is written first. */
  lemma PutPageWritten(rb: Rb, v: View, page: Addr)
    requires Rep(rb, v) && page.page !in RingOf(v) && Links(rb) && rb.w.off == DATA
    ensures Rep(PutPage(rb, page, true), PutBackEmpty(v, page.page))
  {
    LinksOf(rb, v);
    RingLinks(rb, v);
    var ring, m := RingOf(v), |v.region|;
    var v' := PutBackEmpty(v, page.page);
    EmptyAtStart(Current(v));
    assert PageOk(rb.mem, Current(v));
    if m > 1 {
      Inserted(rb.next, rb.prev, ring, m - 1, page.page);
      assert RingOf(v') == Insert(ring, m - 1, page.page);
    } else {
      InsertedFirst(rb.next, rb.prev, ring, page.page);
      assert RingOf(v') == [page.page] + ring;
    }
  }

  lemma EmptyAtStart(p: PageLog)
    requires EndOf(p) == DATA && p.start >= DATA
    ensures p.entries == [] && p.start == DATA
  {
    NonEmptyMoves(p);
  }

  lemma InsertedFirst(next: map<Page, Page>, prev: map<Page, Page>, ring: seq<Page>, page: Page)
    requires Linked(next, prev, ring) && page !in ring
    ensures Linked(LinkNext(next, ring[|ring| - 1], page, ring[0]), LinkPrev(prev, ring[|ring| - 1], page, ring[0]),
                   [page] + ring)
  {
    Inserted(next, prev, ring, |ring|, page);
    assert Insert(ring, |ring|, page) == ring + [page];
    RotatedBack(LinkNext(next, ring[|ring| - 1], page, ring[0]), LinkPrev(prev, ring[|ring| - 1], page, ring[0]), ring,
                page);
  }

  /** Putting a page back unread makes it the oldest again, entries and all, if `r` is at the start
      of its page. */
  lemma PutPageBack(rb: Rb, v: View, p: PageLog)
    requires Rep(rb, v) && p.page !in RingOf(v) && v.region[0].start == DATA
    requires PageOk(rb.mem, p) && Ended(rb.mem, p)
    ensures Links(rb) && Rep(PutPage(rb, Addr(p.page, p.start), false), v.(region := [p] + v.region))
  {
    LinksOf(rb, v);
    var v' := v.(region := [p] + v.region);
    InsertedFirst(rb.next, rb.prev, RingOf(v), p.page);
    assert RingOf(v') == [p.page] + RingOf(v);
    forall k | 0 <= k < |v'.region|
      ensures PageOk(rb.mem, v'.region[k]) && (k > 0 ==> v'.region[k].start == DATA)
      ensures k < |v'.region| - 1 ==> Ended(rb.mem, v'.region[k])
    {
      if k > 0 {
        assert v'.region[k] == v.region[k - 1];
      }
    }
  }

  lemma {:induction false} RotatedBy(next: map<Page, Page>, prev: map<Page, Page>, ring: seq<Page>, k: nat)
    requires Linked(next, prev, ring) && k <= |ring|
    ensures Linked(next, prev, ring[k..] + ring[..k])
  {
    if k == 0 {
      assert ring[k..] + ring[..k] == ring;
    } else {
      RotatedBy(next, prev, ring, k - 1);
      var turned := ring[k - 1..] + ring[..k - 1];
      Rotated(next, prev, turned);
      assert turned[1..] + [turned[0]] == ring[k..] + ring[..k];
    }
  }

  /** gtp_rb_reset leaves an empty region at the page being written. */
  lemma ResetEmpties(rb: Rb, v: View)
    requires Rep(rb, v)
    ensures Rep(Reset(rb), Emptied(v))
  {
    var last := |v.region| - 1;
    RotatedBy(rb.next, rb.prev, RingOf(v), last);
    assert RingOf(Emptied(v)) == RingOf(v)[last..] + RingOf(v)[..last];
  }
}
