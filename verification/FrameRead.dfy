/**
 Reading the frames of all CPUs in order: the merge of gtp_rb_read by frame id, and seeking a frame by
 its number.  The buffers do not change meanwhile.
 */
module FrameRead {
  import opened Options
  import opened PageRing
  import opened PageRuns
  import opened PageWalk

  const ULLONG_MAX := 0xffff_ffff_ffff_ffff

  // ----- the order of a merge -----

  /** The first list whose head is least, among the first k. */
  function Best(lists: seq<seq<nat>>, k: nat): (b: Option<nat>)
    requires k <= |lists|
    ensures b.Some? ==> b.value < k && lists[b.value] != []
    ensures b.Some? ==> forall c :: 0 <= c < k && lists[c] != [] ==> lists[b.value][0] <= lists[c][0]
    ensures b.None? ==> forall c :: 0 <= c < k ==> lists[c] == []
  {
    if k == 0 then None
    else
      var b := Best(lists, k - 1);
      if lists[k - 1] != [] && (b.None? || lists[k - 1][0] < lists[b.value][0]) then Some(k - 1) else b
  }

  function Total(lists: seq<seq<nat>>): nat {
    if lists == [] then 0 else |lists[0]| + Total(lists[1..])
  }

  lemma {:induction false} TotalFalls(lists: seq<seq<nat>>, c: nat)
    requires c < |lists| && lists[c] != []
    ensures Total(lists[c := lists[c][1..]]) == Total(lists) - 1
  {
    var lists' := lists[c := lists[c][1..]];
    if c == 0 {
      assert lists'[1..] == lists[1..];
    } else {
      assert lists'[1..] == lists[1..][c - 1 := lists[c][1..]];
      TotalFalls(lists[1..], c - 1);
    }
  }

  /** The heads in the order repeated reads take them. */
  function Merged(lists: seq<seq<nat>>): seq<nat>
    decreases Total(lists)
  {
    var b := Best(lists, |lists|);
    if b.None? then []
    else
      TotalFalls(lists, b.value);
      [lists[b.value][0]] + Merged(lists[b.value := lists[b.value][1..]])
  }

  lemma MergedStep(lists: seq<seq<nat>>)
    ensures var b := Best(lists, |lists|);
            if b.None? then Merged(lists) == []
            else Merged(lists) == [lists[b.value][0]] + Merged(lists[b.value := lists[b.value][1..]])
  {
  }

  predicate Increasing(ids: seq<nat>) {
    forall i, j :: 0 <= i < j < |ids| ==> ids[i] < ids[j]
  }

  lemma IncreasingCons(id: nat, ids: seq<nat>)
    requires Increasing(ids) && forall x :: x in ids ==> id < x
    ensures Increasing([id] + ids)
  {
    forall i, j | 0 <= i < j < |ids| + 1
      ensures ([id] + ids)[i] < ([id] + ids)[j]
    {
      assert ids[j - 1] in ids;
    }
  }

  /** Each list increases, and no id is in two lists. */
  ghost predicate Mergeable(lists: seq<seq<nat>>) {
    && (forall c :: 0 <= c < |lists| ==> Increasing(lists[c]))
    && (forall c, d, id :: 0 <= c < |lists| && 0 <= d < |lists| && id in lists[c] && id in lists[d] ==> c == d)
  }

  ghost predicate InSome(lists: seq<seq<nat>>, id: nat) {
    exists c :: 0 <= c < |lists| && id in lists[c]
  }

  /** The least head comes before everything else, and the rest stays mergeable. */
  lemma BestFirst(lists: seq<seq<nat>>, c: nat)
    requires Mergeable(lists) && Best(lists, |lists|) == Some(c)
    ensures var lists' := lists[c := lists[c][1..]];
            && Mergeable(lists')
            && (forall id :: InSome(lists', id) ==> lists[c][0] < id)
            && (forall id :: InSome(lists, id) <==> id == lists[c][0] || InSome(lists', id))
  {
    hide Best;
    var lists' := lists[c := lists[c][1..]];
    var first := lists[c][0];
    assert lists[c] == [first] + lists[c][1..];
    forall d | 0 <= d < |lists'|
      ensures Increasing(lists'[d]) && forall id :: id in lists'[d] ==> id in lists[d] && first < id
    {
      assert Increasing(lists[d]);
      forall id | id in lists'[d]
        ensures id in lists[d] && first < id
      {
        var i :| 0 <= i < |lists'[d]| && lists'[d][i] == id;
        if d == c {
          assert lists[c][i + 1] == id;
        } else {
          assert lists[d][0] <= id && first <= lists[d][0];
          assert first in lists[c];
        }
      }
    }
    forall id
      ensures InSome(lists, id) <==> id == first || InSome(lists', id)
    {
      if InSome(lists', id) {
        var d :| 0 <= d < |lists'| && id in lists'[d];
        assert id in lists[d];
      }
      if InSome(lists, id) && id != first {
        var d :| 0 <= d < |lists| && id in lists[d];
        assert id in lists'[d];
      }
      assert first in lists[c];
    }
  }

  /** A merge takes every id exactly once, in strictly increasing order, and nothing else. */
  lemma {:induction false} MergedInOrder(lists: seq<seq<nat>>)
    requires Mergeable(lists)
    ensures Increasing(Merged(lists)) && |Merged(lists)| == Total(lists)
    ensures forall id :: id in Merged(lists) <==> InSome(lists, id)
    decreases Total(lists)
  {
    var b := Best(lists, |lists|);
    if b.None? {
      AllEmpty(lists);
    } else {
      var c := b.value;
      var lists' := lists[c := lists[c][1..]];
      TotalFalls(lists, c);
      BestFirst(lists, c);
      MergedInOrder(lists');
      IncreasingCons(lists[c][0], Merged(lists'));
    }
  }

  lemma {:induction false} AllEmpty(lists: seq<seq<nat>>)
    requires forall c :: 0 <= c < |lists| ==> lists[c] == []
    ensures Total(lists) == 0
  {
    if lists != [] {
      AllEmpty(lists[1..]);
    }
  }

  // ----- the frames among the entries -----

  /** The ids of the frame heads, in order. */
  function Heads(flat: seq<Entry>): seq<nat> {
    if flat == [] then []
    else (if flat[0].Head? then [flat[0].id] else []) + Heads(flat[1..])
  }

  predicate NoHead(flat: seq<Entry>) {
    forall i :: 0 <= i < |flat| ==> !flat[i].Head?
  }

  lemma {:induction false} HeadsSuffix(a: seq<Entry>, b: seq<Entry>)
    ensures Heads(a + b) == Heads(a) + Heads(b)
    decreases |a|
  {
    if a == [] {
      assert a + b == b;
    } else {
      assert (a + b)[1..] == a[1..] + b && (a + b)[0] == a[0];
      HeadsSuffix(a[1..], b);
      var first: seq<nat> := if a[0].Head? then [a[0].id] else [];
      assert Heads(a + b) == first + Heads(a[1..] + b);
      assert Heads(a) == first + Heads(a[1..]);
    }
  }

  lemma {:induction false} HeadsOrdered(cur: Option<nat>, flat: seq<Entry>)
    requires Ordered(cur, flat)
    ensures Increasing(Heads(flat))
    ensures forall id :: id in Heads(flat) ==> id > 0 && (cur.Some? ==> cur.value < id)
    decreases |flat|
  {
    if flat != [] {
      HeadsOrdered(Tag(cur, flat[0]), flat[1..]);
      if flat[0].Head? {
        IncreasingCons(flat[0].id, Heads(flat[1..]));
      } else {
        assert Heads(flat) == Heads(flat[1..]);
      }
    }
  }

  /** The walk of gtp_rb_read finds the next head, or the end when there is none. */
  const TO_HEAD := Walker(None, true, false, None, None, None)

  lemma {:induction false} ToNextHead(s: Walker, flat: seq<Entry>)
    requires s == TO_HEAD.(end := s.end) && Ordered(None, flat)
    ensures var (reason, rest) := FlatScan(s, flat, 0);
            && Heads(rest) == Heads(flat) && Ordered(None, rest)
            && (if reason == AtNewEntry then rest != [] && rest[0].Head? else reason == AtEnd && rest == [])
            && (reason == AtNewEntry <==> Heads(flat) != [])
    decreases |flat|
  {
    if flat != [] {
      OrderedForgets(Tag(None, flat[0]), flat[1..]);
      if !flat[0].Head? {
        ToNextHead(s, flat[1..]);
      }
    }
  }

  /** `rest` begins with the head of frame `id`. */
  predicate AtHead(rest: seq<seq<Entry>>, id: nat) {
    rest != [] && rest[0] != [] && rest[0][0].Head? && rest[0][0].id == id && id > 0
  }

  /** A buffer the writer left in order, with ids a merge can compare. */
  ghost predicate Readable(rb: Rb, v: View) {
    Rep(rb, v) && Ordered(None, Content(v)) && forall id :: id in Heads(Content(v)) ==> id < ULLONG_MAX
  }

  /** The read position `at` of a buffer, with what is left to read there; an `id` other than 0 is
      that of the head it stands at. */
  ghost predicate PlaceOk(rb: Rb, at: Addr, id: nat, rest: seq<seq<Entry>>, pages: seq<Page>) {
    && Stands(rb.next, rb.mem, Some(rb.w), at, rest, pages)
    && Ordered(None, Flat(rest))
    && (forall x :: x in Heads(Flat(rest)) ==> x < ULLONG_MAX)
    && (id != 0 ==> AtHead(rest, id))
  }

  /** `rp` is NULL before the first read. */
  ghost predicate PlaceAt(rb: Rb, rp: Option<Addr>, id: nat, rest: seq<seq<Entry>>, pages: seq<Page>) {
    if rp.None? then id == 0 && PlaceOk(rb, rb.r, 0, rest, pages) else PlaceOk(rb, rp.value, id, rest, pages)
  }

  lemma StartPlace(rb: Rb, v: View)
    requires Readable(rb, v)
    ensures PlaceOk(rb, rb.r, 0, Entries(v.region), Pages(v.region))
    ensures EndsIn(Content(v), Flat(Entries(v.region)))
  {
    RegionStands(rb, v);
  }

  /** `part` is the end of `whole`. */
  predicate EndsIn(whole: seq<Entry>, part: seq<Entry>) {
    |part| <= |whole| && whole[|whole| - |part|..] == part
  }

  lemma EndsInEnd(whole: seq<Entry>, part: seq<Entry>, less: seq<Entry>)
    requires EndsIn(whole, part) && EndsIn(part, less)
    ensures EndsIn(whole, less)
  {
    assert whole[|whole| - |less|..] == part[|part| - |less|..];
  }

  lemma {:induction false} ScanEnds(s: Walker, flat: seq<Entry>, step: nat)
    ensures EndsIn(flat, FlatScan(s, flat, step).1)
    decreases |flat|
  {
    if flat != [] && StopAt(s, flat[0], step).None? {
      ScanEnds(s, flat[1..], StepAfter(s, flat[0], step));
      assert EndsIn(flat, flat[1..]);
      EndsInEnd(flat, flat[1..], FlatScan(s, flat, step).1);
    }
  }

  /** What is left begins right behind the head of frame `id` of tracepoint `num`. */
  predicate FollowsHead(whole: seq<Entry>, id: nat, num: nat, left: seq<Entry>) {
    |left| < |whole| && EndsIn(whole, left) &&
    var h := whole[|whole| - |left| - 1];
    h.Head? && h.id == id && h.num == num
  }

  lemma FollowsEnds(whole: seq<Entry>, id: nat, num: nat, left: seq<Entry>)
    requires FollowsHead(whole, id, num, left)
    ensures EndsIn(whole, left)
  {
  }

  lemma BehindHead(whole: seq<Entry>, part: seq<Entry>, left: seq<Entry>)
    requires EndsIn(whole, part) && part != [] && part[0].Head? && part == [part[0]] + left
    ensures FollowsHead(whole, part[0].id, part[0].num, left)
  {
    assert left == part[1..];
    EndsInEnd(whole, part, left);
    assert whole[|whole| - |part|..][0] == part[0];
  }

  /** What the walk to the next head finds. */
  lemma HeadFound(rb: Rb, at: Addr, rest: seq<seq<Entry>>, pages: seq<Page>,
                  at': Addr, rest': seq<seq<Entry>>, pages': seq<Page>, reason: Reason)
    requires PlaceOk(rb, at, 0, rest, pages) && rest != []
    requires (reason, rest') == Scan(TO_HEAD.(end := Some(rb.w)), true, rest, 0)
    requires Stands(rb.next, rb.mem, Some(rb.w), at', rest', pages')
    ensures Heads(Flat(rest')) == Heads(Flat(rest))
    ensures reason == AtNewEntry <==> Heads(Flat(rest)) != []
    ensures reason == AtNewEntry ==> at' in rb.mem && rb.mem[at'].Head? && AtHead(rest', rb.mem[at'].id)
    ensures PlaceOk(rb, at', if reason == AtNewEntry then rb.mem[at'].id else 0, rest', pages')
    ensures EndsIn(Flat(rest), Flat(rest'))
  {
    var s := TO_HEAD.(end := Some(rb.w));
    PagesVanish(s, rest, 0);
    ScanEnds(s, Flat(rest), 0);
    ToNextHead(s, Flat(rest));
    StopsAtEntry(s, true, rest, 0);
    if reason == AtNewEntry {
      Tests(rb.next, rb.mem, Some(rb.w), at', rest', pages');
      assert rest'[0][0] == Flat(rest')[0];
      assert Fits(None, Flat(rest')[0]);
    }
  }

  /** Stepping over the head the place stands at. */
  lemma HeadPassed(rb: Rb, at: Addr, id: nat, rest: seq<seq<Entry>>, pages: seq<Page>)
    requires PlaceOk(rb, at, id, rest, pages) && id != 0
    ensures rest != [] && rest[0] != [] && at in rb.mem && rb.mem[at].Head? && rb.mem[at].id == id
    ensures Flat(rest) == [rb.mem[at]] + Flat([rest[0][1..]] + rest[1..])
    ensures var rest' := [rest[0][1..]] + rest[1..];
            && PlaceOk(rb, Addr(at.page, at.off + 28), 0, rest', pages)
            && Heads(Flat(rest)) == [id] + Heads(Flat(rest'))
  {
    var rest' := [rest[0][1..]] + rest[1..];
    Tests(rb.next, rb.mem, Some(rb.w), at, rest, pages);
    StepsOver(rb.next, rb.mem, Some(rb.w), at, rest, pages);
    assert rest'[1..] == rest[1..];
    assert Flat(rest)[1..] == Flat(rest') && Flat(rest)[0] == rest[0][0];
    OrderedForgets(Some(id), Flat(rest'));
    assert Heads(Flat(rest)) == [id] + Heads(Flat(rest'));
    forall x | x in Heads(Flat(rest'))
      ensures x < ULLONG_MAX
    {
      assert x in Heads(Flat(rest));
    }
  }

  function HeadsOf(rest: seq<seq<seq<Entry>>>): (r: seq<seq<nat>>)
    ensures |r| == |rest| && forall c :: 0 <= c < |r| ==> r[c] == Heads(Flat(rest[c]))
  {
    seq(|rest|, c requires 0 <= c < |rest| => Heads(Flat(rest[c])))
  }

  function AllEntries(views: seq<View>): (r: seq<seq<seq<Entry>>>)
    ensures |r| == |views| && forall c :: 0 <= c < |r| ==> r[c] == Entries(views[c].region)
  {
    seq(|views|, c requires 0 <= c < |views| => Entries(views[c].region))
  }

  /** The ids of the frames of each CPU. */
  function HeadLists(views: seq<View>): (lists: seq<seq<nat>>)
    ensures |lists| == |views| && forall c :: 0 <= c < |lists| ==> lists[c] == Heads(Content(views[c]))
  {
    HeadsOf(AllEntries(views))
  }

  function AllPages(views: seq<View>): (r: seq<seq<Page>>)
    ensures |r| == |views| && forall c :: 0 <= c < |r| ==> r[c] == Pages(views[c].region)
  {
    seq(|views|, c requires 0 <= c < |views| => Pages(views[c].region))
  }

  // ----- the reader -----

  /** The static variables of the read side: one `rp` and `rp_id` per CPU, the current frame. */
  class Reader {
    const rbs: seq<Rb>
    const rp: array<Option<Addr>>
    const rpId: array<nat>
    var current: Option<nat>    // gtp_frame_current_rb
    var currentId: nat
    var currentTpe: nat
    var frameNum: int           // gtp_frame_current_num

    ghost const views: seq<View>
    ghost var rest: seq<seq<seq<Entry>>>
    ghost var pages: seq<seq<Page>>

    /** A reader that has not read yet. */
    constructor (rbs: seq<Rb>, ghost views: seq<View>)
      requires |views| == |rbs|
      requires forall c :: 0 <= c < |rbs| ==> Readable(rbs[c], views[c])
      requires Mergeable(HeadLists(views))
      ensures this.rbs == rbs && this.views == views && Valid() && Lists() == AllHeads() && frameNum == -1
      ensures InPass()
      ensures fresh(rp) && fresh(rpId)
    {
      hide Mergeable, EndsIn, FollowsHead, Content, PlaceOk, Readable, Merged, Within, Heads, Flat, HeadsOf, AllEntries;
      hide AllPages, Entries, Pages;
      this.rbs, this.views := rbs, views;
      rp := new Option<Addr>[|rbs|](_ => None);
      rpId := new nat[|rbs|](_ => 0);
      current, currentId, currentTpe, frameNum := None, 0, 0, -1;
      rest, pages := AllEntries(views), AllPages(views);
      new;
      forall c | 0 <= c < |rbs|
        ensures PlaceAt(rbs[c], rp[c], rpId[c], rest[c], pages[c]) && EndsIn(Content(views[c]), Flat(rest[c]))
      {
        StartPlace(rbs[c], views[c]);
      }
      PassStarts(Merged(AllHeads()), currentId);
    }

    ghost predicate Valid()
      reads this`rest, this`pages, rp, rpId
    {
      && |rbs| == |views| == rp.Length == rpId.Length == |rest| == |pages|
      && (forall c :: 0 <= c < |rbs| ==> Readable(rbs[c], views[c]))
      && (forall c :: 0 <= c < |rbs| ==> PlaceAt(rbs[c], rp[c], rpId[c], rest[c], pages[c]))
      && (forall c :: 0 <= c < |rbs| ==> EndsIn(Content(views[c]), Flat(rest[c])))
      && Mergeable(HeadLists(views)) && Mergeable(HeadsOf(rest))
    }

    /** The reader stands right behind the head of the current frame, on the current CPU. */
    ghost predicate AtFrame()
      requires Valid()
      reads this, rp, rpId
    {
      current.Some? && current.value < |rbs| &&
      var c := current.value;
      && rp[c].Some? && rpId[c] == 0
      && FollowsHead(Content(views[c]), currentId, currentTpe, Flat(rest[c]))
    }

    /** The ids of the frames still to read, CPU by CPU. */
    ghost function Lists(): seq<seq<nat>>
      reads this`rest
    {
      HeadsOf(rest)
    }

    /** The ids of all frames between `r` and `w`, CPU by CPU. */
    ghost function AllHeads(): seq<seq<nat>> {
      HeadLists(views)
    }

    /** gtp_rb_read_reset. */
    method ReadReset()
      requires Valid()
      modifies this`rest, this`pages, this`frameNum, this`current, rp, rpId
      ensures Valid() && Lists() == AllHeads() && frameNum == -1 && current == None && InPass()
    {
      hide Mergeable, EndsIn, FollowsHead, Content, PlaceOk, Readable, Merged, Within, Heads, Flat;
      for c := 0 to |rbs|
        invariant forall d :: 0 <= d < c ==> rp[d] == Some(rbs[d].r) && rpId[d] == 0
      {
        rp[c] := Some(rbs[c].r);
        rpId[c] := 0;
      }
      frameNum := -1;
      current := None;
      rest, pages := AllEntries(views), AllPages(views);
      forall c | 0 <= c < |rbs|
        ensures PlaceAt(rbs[c], rp[c], rpId[c], rest[c], pages[c]) && EndsIn(Content(views[c]), Flat(rest[c]))
      {
        StartPlace(rbs[c], views[c]);
      }
      PassStarts(Merged(AllHeads()), currentId);
    }

    /** The first half of a turn of gtp_rb_read: bring CPU c to its next head, if it is not at one. */
    method Approach(c: nat) returns (found: bool)
      requires Valid() && c < |rbs|
      modifies this`rest, this`pages, rp, rpId
      ensures Valid() && Lists() == old(Lists())
      ensures found <==> Lists()[c] != []
      ensures found ==> rpId[c] != 0 && rpId[c] == Lists()[c][0]
      ensures forall d :: 0 <= d < |rbs| && d != c ==> rpId[d] == old(rpId[d])
    {
      hide Mergeable, EndsIn, FollowsHead, Content, PlaceOk, Readable, Heads, Flat, Scan;
      assert PlaceAt(rbs[c], rp[c], rpId[c], rest[c], pages[c]);
      if rp[c].None? {
        rp[c] := Some(rbs[c].r);
      }
      if rpId[c] == 0 {
        PlaceStands(rbs[c], rp[c].value, 0, rest[c], pages[c]);
        var s := TO_HEAD.(end := Some(rbs[c].w));
        var reason, at, rest', pages' := Walk(rbs[c].next, rbs[c].mem, s, rp[c].value, rest[c], pages[c]);
        HeadFound(rbs[c], rp[c].value, rest[c], pages[c], at, rest', pages', reason);
        EndsInEnd(Content(views[c]), Flat(rest[c]), Flat(rest'));
        rp[c] := Some(at);
        rest, pages := rest[c := rest'], pages[c := pages'];
        assert HeadsOf(rest) == old(HeadsOf(rest));
        if reason == AtNewEntry {
          rpId[c] := rbs[c].mem[at].id;
        }
      }
      if rpId[c] == 0 {
        return false;
      }
      HeadPassed(rbs[c], rp[c].value, rpId[c], rest[c], pages[c]);
      return true;
    }

    /** The loop of gtp_rb_read: every CPU with frames left is at its next head; `best` is the
        first of those with the least id. */
    method FindLeast() returns (best: Option<nat>)
      requires Valid()
      modifies this`rest, this`pages, rp, rpId
      ensures Valid() && Lists() == old(Lists()) && |Lists()| == |rbs|
      ensures best == Best(Lists(), |Lists()|)
      ensures best.Some? ==> rpId[best.value] != 0 && rpId[best.value] == Lists()[best.value][0]
    {
      hide Mergeable, EndsIn, FollowsHead, Content, PlaceOk, Readable, Heads, Flat;
      var minId := ULLONG_MAX;
      best := None;
      for c := 0 to |rbs|
        invariant Valid() && Lists() == old(Lists())
        invariant best == Best(Lists(), c)
        invariant minId == if best.None? then ULLONG_MAX else Lists()[best.value][0]
        invariant best.Some? ==> rpId[best.value] != 0 && rpId[best.value] == Lists()[best.value][0]
      {
        var found := Approach(c);
        if found {
          IdBound(rbs[c], rp[c], rpId[c], rest[c], pages[c]);
          if rpId[c] < minId {
            minId := rpId[c];
            best := Some(c);
          }
        }
      }
    }

    /** The end of gtp_rb_read with gtp_rb_update_gtp_frame_current: the frame whose head CPU c is at
        becomes the current one, and the reader steps behind its head. */
    method UpdateCurrent(c: nat)
      requires Valid() && c < |rbs| == |Lists()| && rpId[c] != 0 && Lists()[c] != [] && rpId[c] == Lists()[c][0]
      requires Mergeable(Lists()[c := Lists()[c][1..]])
      modifies this, rp, rpId
      ensures Valid() && AtFrame() && current == Some(c) && frameNum == old(frameNum) + 1
      ensures currentId == old(Lists())[c][0] && Lists() == old(Lists())[c := old(Lists())[c][1..]]
    {
      hide Mergeable, EndsIn, FollowsHead, Content, PlaceOk, Readable, Heads, Flat;
      HeadPassed(rbs[c], rp[c].value, rpId[c], rest[c], pages[c]);
      BehindHead(Content(views[c]), Flat(rest[c]), Flat([rest[c][0][1..]] + rest[c][1..]));
      ghost var lists := Lists();
      var at := rp[c].value;
      current := Some(c);
      currentId := rbs[c].mem[at].id;
      currentTpe := rbs[c].mem[at].num;
      rpId[c] := 0;
      rp[c] := Some(Addr(at.page, at.off + 28));
      rest := rest[c := [rest[c][0][1..]] + rest[c][1..]];
      assert Lists() == lists[c := lists[c][1..]];
      FollowsEnds(Content(views[c]), currentId, currentTpe, Flat(rest[c]));
      frameNum := frameNum + 1;
    }

    /** The code that has read the current frame's entries moves the CPU's read position past them. */
    method StepTo(c: nat, at: Addr, ghost rest': seq<seq<Entry>>, ghost pages': seq<Page>)
      requires Valid() && c < |rbs| == |rest| && rpId[c] == 0
      requires Stands(rbs[c].next, rbs[c].mem, Some(rbs[c].w), at, rest', pages')
      requires EndsIn(Flat(rest[c]), Flat(rest')) && Heads(Flat(rest')) == Heads(Flat(rest[c]))
      modifies this`rest, this`pages, rp
      ensures Valid() && Lists() == old(Lists())
    {
      hide Mergeable, EndsIn, PlaceOk, Readable, Heads, Flat, Content, Stands, Scan, Merged;
      PlaceEnds(rbs[c], rp[c], rest[c], pages[c], at, rest', pages');
      EndsInEnd(Content(views[c]), Flat(rest[c]), Flat(rest'));
      rp[c] := Some(at);
      rest, pages := rest[c := rest'], pages[c := pages'];
      assert HeadsOf(rest) == old(HeadsOf(rest));
    }

    /** gtp_rb_read: the frame with the least id on any CPU becomes the current one, from the CPU that
        has it; when no frame is left, the reader is reset. */
    method Read() returns (ret: int)
      requires Valid()
      modifies this, rp, rpId
      ensures Valid()
      ensures ret == 0 || ret == -1
      ensures ret == -1 <==> Merged(old(Lists())) == []
      ensures ret == 0 ==>
        && Merged(old(Lists())) == [currentId] + Merged(Lists())
        && frameNum == old(frameNum) + 1 && AtFrame()
        && current == Best(old(Lists()), |old(Lists())|)
        && Lists() == old(Lists())[current.value := old(Lists())[current.value][1..]]
      ensures ret == -1 ==> Lists() == AllHeads() && frameNum == -1 && current == None && InPass()
    {
      hide Mergeable, EndsIn, FollowsHead, Content, PlaceOk, PlaceAt, Readable, Heads, Flat, Merged, Increasing;
      current := None;
      var best := FindLeast();
      MergedStep(Lists());
      if best.None? {
        ReadReset();
        return -1;
      }
      BestFirst(Lists(), best.value);
      UpdateCurrent(best.value);
      return 0;
    }

    /** The frames as gtp_rb_read gives them, up to the first -1: every frame left on any CPU once, in
        the order of their ids. */
    method ReadAll() returns (ids: seq<nat>)
      requires Valid()
      modifies this, rp, rpId
      ensures Valid() && ids == Merged(old(Lists())) && Lists() == AllHeads()
      ensures Increasing(ids) && forall id :: id in ids <==> InSome(old(Lists()), id)
    {
      hide Mergeable, EndsIn, FollowsHead, Content, Increasing, InSome, Best, Merged, HeadsOf, HeadLists, AllEntries;
      hide PlaceOk, Readable;
      MergedInOrder(Lists());
      ids := [];
      ghost var all := Merged(Lists());
      while true
        invariant Valid() && all == ids + Merged(Lists())
        decreases |Merged(Lists())|
      {
        var ret := Read();
        if ret != 0 {
          return;
        }
        ids := ids + [currentId];
      }
    }

    ghost predicate InPass()
      requires Valid()
      reads this, rp, rpId
    {
      && Within(Merged(AllHeads()), frameNum + 1, currentId, Merged(Lists()))
      && (frameNum >= 0 ==> AtFrame())
    }

    /** gtp_frame_head_find_num: from any place in a pass the reader lands on frame `num` of the
        merged order, if there is one. */
    method FindNum(num: int) returns (ret: int)
      requires Valid() && InPass() && num >= 0
      modifies this, rp, rpId
      ensures Valid() && InPass()
      ensures ret == 0 <==> num < |Merged(AllHeads())|
      ensures ret == 0 ==> frameNum == num && currentId == Merged(AllHeads())[num] && AtFrame()
      ensures ret != 0 ==> ret == -1 && frameNum == -1
    {
      hide Mergeable, EndsIn, FollowsHead, Content, Best, Merged, Within, PlaceOk, Readable, HeadsOf, HeadLists, AllEntries;
      ghost var all := Merged(AllHeads());
      if num < frameNum {
        ReadReset();
        PassStarts(all, currentId);
      }
      while true
        invariant Valid() && InPass() && frameNum <= num
        decreases |Merged(Lists())|
      {
        PassAt(all, frameNum + 1, currentId, Merged(Lists()));
        if frameNum == num {
          return 0;
        }
        ghost var before, k, id := Merged(Lists()), frameNum + 1, currentId;
        var r := Read();
        if r != 0 {
          PassStarts(all, currentId);
          return -1;
        }
        PassStep(all, k, id, before, currentId, Merged(Lists()));
      }
    }
  }

  /** The reader is inside one pass from a reset: `read` frames of `all` are read. */
  ghost predicate Within(all: seq<nat>, read: int, id: nat, left: seq<nat>) {
    0 <= read <= |all| && all == all[..read] + left && (read > 0 ==> id == all[read - 1])
  }

  lemma PassStarts(all: seq<nat>, id: nat)
    ensures Within(all, 0, id, all)
  {
    assert all == all[..0] + all;
  }

  lemma PassAt(all: seq<nat>, read: int, id: nat, left: seq<nat>)
    requires Within(all, read, id, left)
    ensures 0 <= read <= |all| && |left| == |all| - read && (read > 0 ==> id == all[read - 1])
  {
  }

  lemma PassStep(all: seq<nat>, read: int, id: nat, left: seq<nat>, id': nat, left': seq<nat>)
    requires Within(all, read, id, left) && left == [id'] + left'
    ensures Within(all, read + 1, id', left')
  {
    assert all[read] == id';
    assert all[..read + 1] == all[..read] + [id'];
  }

  lemma IdBound(rb: Rb, at: Option<Addr>, id: nat, rest: seq<seq<Entry>>, pages: seq<Page>)
    requires PlaceAt(rb, at, id, rest, pages) && id != 0
    ensures id < ULLONG_MAX && Heads(Flat(rest)) != [] && Heads(Flat(rest))[0] == id
  {
    HereIsHead(rest, id);
    assert Heads(Flat(rest))[0] in Heads(Flat(rest));
  }

  lemma HereIsHead(rest: seq<seq<Entry>>, id: nat)
    requires AtHead(rest, id)
    ensures Heads(Flat(rest)) != [] && Heads(Flat(rest))[0] == id
  {
    assert Flat(rest)[0] == rest[0][0];
  }

  lemma {:induction false} PlaceEnds(rb: Rb, rp: Option<Addr>, rest: seq<seq<Entry>>, pages: seq<Page>,
                                     at: Addr, rest': seq<seq<Entry>>, pages': seq<Page>)
    requires PlaceAt(rb, rp, 0, rest, pages) && Stands(rb.next, rb.mem, Some(rb.w), at, rest', pages')
    requires EndsIn(Flat(rest), Flat(rest')) && Heads(Flat(rest')) == Heads(Flat(rest))
    ensures PlaceOk(rb, at, 0, rest', pages')
  {
    hide Heads, Flat, Stands;
    var whole, part := Flat(rest), Flat(rest');
    var gone := whole[..|whole| - |part|];
    assert whole == gone + part;
    OrderedSuffix(None, gone, part);
  }

  lemma PlaceStands(rb: Rb, at: Addr, id: nat, rest: seq<seq<Entry>>, pages: seq<Page>)
    requires PlaceOk(rb, at, id, rest, pages)
    ensures Stands(rb.next, rb.mem, Some(rb.w), at, rest, pages) && rest != []
  {
  }

  lemma {:induction false} BehindHeadOrdered(rb: Rb, v: View, id: nat, num: nat, left: seq<Entry>)
    requires Readable(rb, v) && FollowsHead(Content(v), id, num, left)
    ensures Ordered(Some(id), left)
  {
    hide Rep, Content, Heads;
    var whole := Content(v);
    var at := |whole| - |left| - 1;
    assert whole == whole[..at + 1] + left && whole[..at + 1] == whole[..at] + [whole[at]];
    OrderedPrefix(None, whole[..at + 1], left);
    OrderedPrefix(None, whole[..at], [whole[at]]);
    FrameAfterHead(None, whole[..at], whole[at]);
  }

  lemma {:induction false} FrameAfterHead(cur: Option<nat>, before: seq<Entry>, h: Entry)
    requires h.Head?
    ensures FrameAfter(cur, before + [h]) == Some(h.id)
    decreases |before|
  {
    if before == [] {
      assert ([] + [h])[1..] == [];
    } else {
      assert (before + [h])[1..] == before[1..] + [h];
      FrameAfterHead(Tag(cur, before[0]), before[1..], h);
    }
  }
}
