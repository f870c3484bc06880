/**
 The circular byte arena of gtp.c: entries are laid out one after the other from the start; at the
 end the writer begins again and overtakes the oldest entries.  Offsets are from gtp_frame.
 */
module ByteArena {
  import opened Options

  const SIZE := 5242880    // GTP_FRAME_SIZE, which is gtp_frame_end

  /** An entry's aligned size, and its number in the order of allocation. */
  datatype Item = Item(size: nat, tag: nat)

  /** What starts at an offset: an entry, or FID_END. */
  datatype Cell = Full(item: Item) | EndMark

  /** The entries lie one after the other from p to q. */
  ghost predicate Tile(mem: map<nat, Cell>, p: nat, items: seq<Item>, q: nat)
    decreases |items|
  {
    if items == [] then p == q
    else
      && p in mem && mem[p] == Full(items[0]) && items[0].size >= 4 && items[0].size % 4 == 0
      && Tile(mem, p + items[0].size, items[1..], q)
  }

  lemma {:induction false} TileForward(mem: map<nat, Cell>, p: nat, items: seq<Item>, q: nat)
    requires Tile(mem, p, items, q)
    ensures p <= q && (p == q <==> items == []) && (p % 4 == 0 ==> q % 4 == 0)
    decreases |items|
  {
    if items != [] {
      TileForward(mem, p + items[0].size, items[1..], q);
    }
  }

  /** Writing an entry over [at, at + size): what started inside is gone. */
  function Store(mem: map<nat, Cell>, at: nat, item: Item): map<nat, Cell> {
    (map x | x in mem && !(at <= x < at + item.size) :: mem[x])[at := Full(item)]
  }

  lemma {:induction false} TileKept(mem: map<nat, Cell>, p: nat, items: seq<Item>, q: nat, at: nat, item: Item)
    requires Tile(mem, p, items, q) && (q <= at || at + item.size <= p) && item.size > 0
    ensures Tile(Store(mem, at, item), p, items, q)
    decreases |items|
  {
    if items != [] {
      TileForward(mem, p + items[0].size, items[1..], q);
      TileKept(mem, p + items[0].size, items[1..], q, at, item);
    }
  }

  lemma {:induction false} TileGrows(mem: map<nat, Cell>, p: nat, items: seq<Item>, q: nat, item: Item)
    requires Tile(mem, p, items, q) && q in mem && mem[q] == Full(item) && item.size >= 4 && item.size % 4 == 0
    ensures Tile(mem, p, items + [item], q + item.size)
    decreases |items|
  {
    var more := items + [item];
    if items == [] {
      assert more[1..] == [];
    } else {
      assert more[1..] == items[1..] + [item];
      TileGrows(mem, p + items[0].size, items[1..], q, item);
    }
  }

  /** Marking the end of a lap at q. */
  lemma {:induction false} TileMarked(mem: map<nat, Cell>, p: nat, items: seq<Item>, q: nat)
    requires Tile(mem, p, items, q)
    ensures Tile(mem[q := EndMark], p, items, q)
    decreases |items|
  {
    if items != [] {
      TileForward(mem, p + items[0].size, items[1..], q);
      TileMarked(mem, p + items[0].size, items[1..], q);
    }
  }

  datatype Arena = Arena(mem: map<nat, Cell>, r: nat, w: nat, circular: bool)

  /** What is left of the lap before: its entries from `r` on, up to where it ended. */
  datatype Past = Gone | Kept(items: seq<Item>, end: nat)

  function Items(past: Past): seq<Item> {
    match past case Gone => [] case Kept(items, _) => items
  }

  /** The past lap lies from `r` to its end, a mark or the end of the arena, and past `w`. */
  ghost predicate PastOk(a: Arena, past: Past) {
    match past
    case Gone => a.r == 0
    case Kept(items, end) =>
      && a.circular && a.w <= a.r < SIZE && a.r % 4 == 0 && a.r <= end <= SIZE
      && Tile(a.mem, a.r, items, end)
      && (end < SIZE ==> end in a.mem && a.mem[end] == EndMark)
  }

  /** The lap being written fills [0, w). */
  ghost predicate Rep(a: Arena, past: Past, lap: seq<Item>) {
    && a.w <= SIZE && a.w % 4 == 0 && Tile(a.mem, 0, lap, a.w) && PastOk(a, past)
    && (a.circular ==> a.w > 0)
  }

  /** gtp_frame_next. */
  function Next(mem: map<nat, Cell>, p: nat): Option<nat> {
    if p !in mem then None
    else
      match mem[p]
      case Full(item) => Some(p + item.size)
      case EndMark => Some(SIZE)
  }

  /** Where the reclaiming loop goes from `r`. */
  function Advance(mem: map<nat, Cell>, r: nat): nat {
    match Next(mem, r)
    case None => r
    case Some(q) => if q == SIZE then 0 else q
  }

  /** The last place in the lap, before the end of the arena, where an entry or the mark starts. */
  function LastBoundary(w: nat, lap: seq<Item>): int
    requires lap != []
  {
    if w < SIZE then w else w - lap[|lap| - 1].size
  }

  /** gtp_frame_alloc never returns. */
  predicate Hangs(a: Arena, lap: seq<Item>, size: nat, circularMode: bool) {
    circularMode && size <= SIZE && a.w + size > SIZE && lap != [] && LastBoundary(a.w, lap) < size
  }

  /** Entries of at most half the arena never make it hang. */
  lemma HalfNeverHangs(a: Arena, past: Past, lap: seq<Item>, size: nat, circularMode: bool)
    requires Rep(a, past, lap) && 2 * size <= SIZE
    requires forall i :: 0 <= i < |lap| ==> 2 * lap[i].size <= SIZE
    ensures !Hangs(a, lap, size, circularMode)
  {
  }

  /** What the wrap leaves: the lap just written becomes the past one, read from the start. */
  function Wrapped(a: Arena): Arena {
    Arena(if a.w == SIZE then a.mem else a.mem[a.w := EndMark], 0, 0, true)
  }

  lemma WrapKeeps(a: Arena, past: Past, lap: seq<Item>)
    requires Rep(a, past, lap) && lap != []
    ensures PastOk(Wrapped(a), Kept(lap, a.w)) && Tile(Wrapped(a).mem, 0, [], 0)
  {
    TileForward(a.mem, 0, lap, a.w);
    TileMarked(a.mem, 0, lap, a.w);
  }

  /** One turn of the reclaiming loop drops the oldest entry, or at the end of its lap the lap. */
  lemma AdvanceDrops(a: Arena, past: Past)
    requires PastOk(a, past) && past.Kept?
    ensures Next(a.mem, a.r).Some?
    ensures var a' := a.(r := Advance(a.mem, a.r));
            if past.items == [] || a.r + past.items[0].size == SIZE then PastOk(a', Gone) && |past.items| <= 1
            else PastOk(a', Kept(past.items[1..], past.end)) && a'.r == a.r + past.items[0].size
  {
    if past.items != [] {
      TileForward(a.mem, a.r + past.items[0].size, past.items[1..], past.end);
    }
  }

  /** With the writer at the start, a place to stop at or past `size` stays ahead. */
  ghost predicate StopAhead(past: Past, size: nat) {
    past.Kept? &&
    if past.end < SIZE then size <= past.end
    else past.items != [] && size <= past.end - past.items[|past.items| - 1].size
  }

  lemma AdvanceStops(a: Arena, past: Past, size: nat)
    requires PastOk(a, past) && StopAhead(past, size) && a.r < size
    ensures past.items != [] && a.r + past.items[0].size != SIZE
    ensures StopAhead(Kept(past.items[1..], past.end), size)
  {
    var items := past.items;
    if items == [] {
      assert false;
    }
    TileForward(a.mem, a.r + items[0].size, items[1..], past.end);
    if past.end == SIZE && |items| == 1 {
      assert false;
    }
  }

  /** One turn of the reclaiming loop: what it drops, and that it can go on. */
  lemma Turn(a: Arena, past: Past, size: nat) returns (past': Past, dropped: seq<Item>)
    requires PastOk(a, past) && a.w <= a.r && a.w + size > a.r
    requires if a.w == 0 then StopAhead(past, size) else past.Kept? || a.r > 0
    ensures Next(a.mem, a.r).Some? && PastOk(a.(r := Advance(a.mem, a.r)), past')
    ensures Items(past) == dropped + Items(past')
    ensures a.w == 0 ==> StopAhead(past', size)
    ensures past.Kept? && (past'.Gone? || |Items(past')| < |Items(past)|)
    ensures |dropped| <= 1 && (past'.Kept? ==> |dropped| == 1 && Advance(a.mem, a.r) == a.r + dropped[0].size)
  {
    AdvanceDrops(a, past);
    if a.w == 0 {
      AdvanceStops(a, past, size);
    }
    if past.items == [] {
      past', dropped := Gone, [];
    } else {
      assert past.items == [past.items[0]] + past.items[1..];
      dropped := [past.items[0]];
      past' := if a.r + past.items[0].size == SIZE then Gone else Kept(past.items[1..], past.end);
    }
  }

  function Total(items: seq<Item>): nat {
    if items == [] then 0 else Total(items[..|items| - 1]) + items[|items| - 1].size
  }

  /** Of the entries given up, which lie from `base` on, each begins before `end`. */
  ghost predicate InTheWay(base: nat, gone: seq<Item>, end: nat) {
    forall i :: 0 <= i < |gone| ==> base + Total(gone[..i]) < end
  }

  lemma NothingOver(base: nat, end: nat, kept: bool)
    ensures Given(base, [], base, end, kept)
  {
  }

  /** The same in the loop, which is at r as long as there is something of the lap before. */
  ghost predicate Given(base: nat, over: seq<Item>, r: nat, end: nat, kept: bool) {
    InTheWay(base, over, end) && (kept ==> r == base + Total(over))
  }

  lemma {:induction false} OverMore(base: nat, over: seq<Item>, dropped: seq<Item>, r: nat, end: nat, r': nat, kept: bool)
    requires Given(base, over, r, end, true) && |dropped| <= 1 && r < end
    requires kept ==> |dropped| == 1 && r' == r + dropped[0].size
    ensures Given(base, over + dropped, r', end, kept)
  {
    hide Total;
    var all := over + dropped;
    forall i | 0 <= i < |all| ensures base + Total(all[..i]) < end {
      assert all[..i] == if i < |over| then over[..i] else over;
    }
    if |dropped| == 1 {
      assert dropped == [dropped[0]];
      TotalMore(over, dropped[0]);
    }
  }

  lemma TotalMore(items: seq<Item>, item: Item)
    ensures Total(items + [item]) == Total(items) + item.size
  {
    assert (items + [item])[..|items|] == items;
  }

  lemma GivenUp(base: nat, over: seq<Item>, r: nat, end: nat, kept: bool)
    requires Given(base, over, r, end, kept)
    ensures InTheWay(base, over, end)
  {
  }

  /** What was there is what has been given up and what is left. */
  ghost predicate Accounted(past: Past, lap: seq<Item>, gone: seq<Item>, past': Past, lap': seq<Item>) {
    Items(past) + lap == gone + Items(past') + lap'
  }

  lemma AccountStart(past: Past, lap: seq<Item>)
    ensures Accounted(past, lap, [], past, lap)
  {
    assert [] + Items(past) == Items(past);
  }

  lemma AccountWrap(past: Past, lap: seq<Item>, w: nat)
    ensures Accounted(past, lap, Items(past), Kept(lap, w), [])
  {
    assert Items(past) + lap + [] == Items(past) + lap;
  }

  lemma AccountMore(past: Past, lap: seq<Item>, first: seq<Item>, before: Past, lap': seq<Item>, over: seq<Item>,
                    past': Past)
    requires Accounted(past, lap, first, before, lap') && Items(before) == over + Items(past')
    ensures Items(past) + lap == (first + over) + Items(past') + lap'
    ensures first == [] ==> first + over == over
    ensures first <= first + over && (first + over)[|first|..] == over
  {
    assert first + (over + Items(past')) == (first + over) + Items(past');
  }

  lemma NothingReclaimed(past: Past)
    ensures Items(past) == [] + Items(past)
  {
  }

  lemma NothingInTheWay(base: nat, end: nat)
    ensures InTheWay(base, [], end)
  {
    NothingOver(base, end, false);
  }

  /** The variables gtp_frame_r_start, gtp_frame_w_start and gtp_frame_is_circular, and the bytes. */
  class FrameArena {
    var mem: map<nat, Cell>
    var r: nat
    var w: nat
    var isCircular: bool

    constructor ()
      ensures Rep(State(), Gone, []) && !isCircular && w == 0
    {
      mem, r, w, isCircular := map[], 0, 0, false;
    }

    ghost function State(): Arena
      reads this
    {
      Arena(mem, r, w, isCircular)
    }

    /** The reclaiming loop of gtp_frame_alloc: as long as the entry at r is in the way of the room it is
        given up. */
    method Reclaim(size: nat, ghost past: Past, ghost lap: seq<Item>)
      returns (ok: bool, ghost past': Past, ghost gone: seq<Item>)
      requires Tile(mem, 0, lap, w) && PastOk(State(), past) && isCircular
      requires w + size <= SIZE && w % 4 == 0 && (w == 0 ==> StopAhead(past, size))
      modifies this`r
      ensures ok && Tile(mem, 0, lap, w) && PastOk(State(), past') && !(w <= r && w + size > r)
      ensures Items(past) == gone + Items(past') && InTheWay(old(r), gone, w + size)
    {
      hide PastOk, Tile, StopAhead, Next, Items, Total, InTheWay, Given;
      ok, past', gone := true, past, [];
      NothingOver(r, w + size, past.Kept?);
      assert [] + Items(past) == Items(past);
      while w <= r && w + size > r
        invariant ok && Tile(mem, 0, lap, w) && PastOk(State(), past')
        invariant w == 0 ==> StopAhead(past', size)
        invariant Items(past) == gone + Items(past') && Given(old(r), gone, r, w + size, past'.Kept?)
        decreases past'.Kept?, |Items(past')|
      {
        ghost var dropped, before, here := [], past', r;
        past', dropped := Turn(State(), past', size);
        var tmp := Next(mem, r);
        if tmp.None? {
          ok := false;
          return;
        }
        if tmp.value == SIZE {
          r := 0;
        } else {
          r := tmp.value;
        }
        DropMore(gone, dropped, Items(before), Items(past'));
        OverMore(old(r), gone, dropped, here, w + size, r, past'.Kept?);
        gone := gone + dropped;
      }
      GivenUp(old(r), gone, r, w + size, past'.Kept?);
    }

    /** gtp_frame_alloc.  It returns, unless it must wrap and finds no place to stop; the room it
        returns does not overlap what stays readable, and only the oldest entries are given up: what was left
        of the lap before when it wraps, and those in the way of the room. */
    method Alloc(size: nat, circularMode: bool, ghost past: Past, ghost lap: seq<Item>)
      returns (at: Option<nat>, ghost past': Past, ghost lap': seq<Item>, ghost gone: seq<Item>)
      requires Rep(State(), past, lap) && 4 <= size && size % 4 == 0
      requires !Hangs(State(), lap, size, circularMode)
      modifies this
      ensures at == None <==> size > SIZE || (!circularMode && old(w) + size > SIZE)
      ensures at == None ==> State() == old(State()) && past' == past && lap' == lap
      ensures !old(isCircular) && old(w) + size <= SIZE ==> past' == past
      ensures at.Some? ==>
        && w == at.value + size <= SIZE && w % 4 == 0
        && Tile(mem, 0, lap', at.value) && PastOk(State(), past')
        && Items(past) + lap == gone + Items(past') + lap'
      ensures at.Some? ==>
        if old(w) + size <= SIZE then InTheWay(old(r), gone, w)
        else Items(past) <= gone && InTheWay(0, gone[|Items(past)|..], w)
    {
      hide PastOk, Tile, StopAhead, LastBoundary, Next, InTheWay, Items, Accounted;
      past', lap', gone := past, lap, [];
      at := None;
      ghost var before, first, over := past, [], [];
      if size > SIZE {
        return;
      }
      AccountStart(past, lap);
      if w + size > SIZE {
        if !circularMode {
          return;
        }
        LapNotEmpty(State(), past, lap);
        WrapKeeps(State(), past, lap);
        StopAfterWrap(w, lap, size);
        AccountWrap(past, lap, w);
        before, lap', first := Kept(lap, w), [], Items(past);
        past' := before;
        isCircular := true;
        if w != SIZE {
          mem := mem[w := EndMark];
        }
        w := 0;
        r := 0;
      }
      NothingInTheWay(r, w + size);
      NothingReclaimed(past');
      if isCircular {
        var ok;
        ok, past', over := Reclaim(size, past', lap');
        if !ok {
          return;
        }
      }
      AccountMore(past, lap, first, before, lap', over, past');
      gone := first + over;
      at := Some(w);
      w := w + size;
      RoomBelow(State().(w := w - size), past', size);
    }

    /** The caller of gtp_frame_alloc stores the entry. */
    method Add(item: Item, circularMode: bool, ghost past: Past, ghost lap: seq<Item>)
      returns (ok: bool, ghost past': Past, ghost lap': seq<Item>, ghost gone: seq<Item>)
      requires Rep(State(), past, lap) && 4 <= item.size && item.size % 4 == 0
      requires !Hangs(State(), lap, item.size, circularMode)
      modifies this
      ensures Rep(State(), past', lap')
      ensures ok <==> item.size <= SIZE && (circularMode || old(w) + item.size <= SIZE)
      ensures if ok then Items(past) + lap + [item] == gone + Items(past') + lap' && lap' != [] && lap'[|lap'| - 1] == item
              else past' == past && lap' == lap
      ensures !old(isCircular) && old(w) + item.size <= SIZE ==> past' == past
    {
      var at;
      at, past', lap', gone := Alloc(item.size, circularMode, past, lap);
      ok := at.Some?;
      if ok {
        ghost var before := State();
        mem := Store(mem, at.value, item);
        TileKept(before.mem, 0, lap', at.value, at.value, item);
        TileGrows(mem, 0, lap', at.value, item);
        PastKept(before, past', at.value, item);
        lap' := lap' + [item];
        assert Items(past) + lap + [item] == gone + Items(past') + lap';
      }
    }

    /** Any number of entries of at most half the arena, in circular mode: every allocation returns
        and succeeds, and what stays readable is an end of what was allocated, the newest entry in
        it. */
    method AddAll(items: seq<Item>) returns (ghost past: Past, ghost lap: seq<Item>, ghost gone: seq<Item>)
      requires Rep(State(), Gone, [])
      requires forall i :: 0 <= i < |items| ==> 4 <= items[i].size && items[i].size % 4 == 0 && 2 * items[i].size <= SIZE
      modifies this
      ensures Rep(State(), past, lap) && items == gone + Items(past) + lap
      ensures items != [] ==> lap != [] && lap[|lap| - 1] == items[|items| - 1]
    {
      hide Rep, Hangs;
      past, lap, gone := Gone, [], [];
      for i := 0 to |items|
        invariant Rep(State(), past, lap) && items[..i] == gone + Items(past) + lap
        invariant i > 0 ==> lap != [] && lap[|lap| - 1] == items[i - 1]
      {
        forall k | 0 <= k < |lap|
          ensures 2 * lap[k].size <= SIZE
        {
          assert lap[k] == items[|gone| + |Items(past)| + k];
        }
        HalfNeverHangs(State(), past, lap, items[i].size, true);
        ghost var dropped;
        var ok;
        ghost var before := Items(past) + lap;
        assert gone + before == items[..i];
        ok, past, lap, dropped := Add(items[i], true, past, lap);
        assert items[..i + 1] == items[..i] + [items[i]];
        Shift(gone, before, [items[i]], dropped, Items(past), lap);
        gone := gone + dropped;
      }
      assert items[..|items|] == items;
    }
  }

  // ----- walking from r to w -----

  /** The walk over the arena, as the searches and the export do it: it meets every readable entry
      once, oldest first. */
  method Walk(a: Arena, ghost past: Past, ghost lap: seq<Item>) returns (visited: seq<Item>)
    requires Rep(a, past, lap) && lap != []
    ensures visited == Items(past) + lap
  {
    hide Tile, PastOk, WalkAt;
    visited := [];
    var p, first := a.r, true;
    ghost var left, rest := past, lap;
    StartWalk(a, past, lap);
    while first || p != a.w
      invariant WalkAt(a, p, left, rest, lap)
      invariant visited + Items(left) + rest == Items(past) + lap
      invariant first ==> left == past && rest == lap
      invariant !first && p == a.w ==> left == Gone && rest == []
      decreases if left.Kept? then 1 else 0, MarkLeft(left) + |Items(left)|, |rest|
    {
      ghost var left', rest', seen := WalkTurn(a, p, left, rest, lap, first);
      ghost var before := visited;
      if p == SIZE {
        p := 0;
      }
      if p in a.mem && a.mem[p].Full? {
        visited := visited + [a.mem[p].item];
      }
      var n := Next(a.mem, p);
      if n.None? {
        break;
      }
      p, first := n.value, false;
      Passed(before, Items(left), rest, seen, Items(left'), rest');
      left, rest := left', rest';
    }
  }

  lemma Shift(gone: seq<Item>, before: seq<Item>, more: seq<Item>, dropped: seq<Item>, a: seq<Item>, b: seq<Item>)
    requires before + more == dropped + a + b
    ensures gone + before + more == gone + dropped + a + b
  {
    assert gone + before + more == gone + (before + more);
  }

  lemma Passed(visited: seq<Item>, a: seq<Item>, b: seq<Item>, seen: seq<Item>, a': seq<Item>, b': seq<Item>)
    requires a + b == seen + a' + b'
    ensures visited + a + b == visited + seen + a' + b'
  {
    assert visited + a + b == visited + (a + b);
    assert visited + seen + a' + b' == visited + (seen + a' + b');
  }

  function MarkLeft(past: Past): nat {
    if past.Kept? && past.end < SIZE then 1 else 0
  }

  /** The walk stands at the entries still to meet: the rest of the past lap and the whole new one,
      or the rest of the new one. */
  ghost predicate WalkAt(a: Arena, p: nat, left: Past, rest: seq<Item>, lap: seq<Item>) {
    && a.w <= SIZE && Tile(a.mem, 0, lap, a.w) && lap != []
    && match left
       case Gone => Tile(a.mem, p, rest, a.w)
       case Kept(items, end) =>
         && rest == lap && a.w <= p <= end <= SIZE && Tile(a.mem, p, items, end) && a.w < SIZE
         && (end < SIZE ==> end in a.mem && a.mem[end] == EndMark)
  }

  lemma StartWalk(a: Arena, past: Past, lap: seq<Item>)
    requires Rep(a, past, lap) && lap != []
    ensures WalkAt(a, a.r, past, lap, lap)
  {
  }

  /** One turn of the walk. */
  lemma WalkTurn(a: Arena, p: nat, left: Past, rest: seq<Item>, lap: seq<Item>, first: bool)
    returns (left': Past, rest': seq<Item>, seen: seq<Item>)
    requires WalkAt(a, p, left, rest, lap) && (p == a.w && left == Gone ==> first && rest == lap)
    ensures var q := if p == SIZE then 0 else p;
            && q in a.mem && Next(a.mem, q).Some?
            && seen == (if a.mem[q].Full? then [a.mem[q].item] else [])
            && Items(left) + rest == seen + Items(left') + rest'
            && WalkAt(a, Next(a.mem, q).value, left', rest', lap)
            && (Next(a.mem, q).value == a.w ==> left' == Gone && rest' == [])
    ensures if left.Gone? then left'.Gone? && |rest'| < |rest|
            else left'.Gone? || MarkLeft(left') + |Items(left')| < MarkLeft(left) + |Items(left)|
  {
    TileForward(a.mem, 0, lap, a.w);
    if left.Kept? && left.items != [] {
      TileForward(a.mem, p, left.items, left.end);
      TileForward(a.mem, p + left.items[0].size, left.items[1..], left.end);
      left', rest', seen := Kept(left.items[1..], left.end), rest, [left.items[0]];
      assert left.items == [left.items[0]] + left.items[1..];
    } else if left.Kept? && left.end < SIZE {
      left', rest', seen := Kept([], SIZE), rest, [];
    } else {
      if left.Gone? {
        TileForward(a.mem, p, rest, a.w);
      }
      TileForward(a.mem, (if p == SIZE then 0 else p) + rest[0].size, rest[1..], a.w);
      left', rest', seen := Gone, rest[1..], [rest[0]];
      assert rest == [rest[0]] + rest[1..];
    }
  }

  lemma LapNotEmpty(a: Arena, past: Past, lap: seq<Item>)
    requires Rep(a, past, lap)
    ensures a.w > 0 <==> lap != []
  {
    TileForward(a.mem, 0, lap, a.w);
  }

  lemma DropMore(gone: seq<Item>, dropped: seq<Item>, items: seq<Item>, items': seq<Item>)
    requires items == dropped + items'
    ensures gone + items == gone + dropped + items'
  {
  }

  /** When the loop is done the room ends at or before `r`. */
  lemma RoomBelow(a: Arena, past: Past, size: nat)
    requires PastOk(a, past) && !(a.circular && a.w <= a.r && a.w + size > a.r)
    ensures PastOk(a.(w := a.w + size), past)
  {
  }

  lemma PastKept(a: Arena, past: Past, at: nat, item: Item)
    requires PastOk(a, past) && at + item.size == a.w && item.size > 0
    ensures PastOk(a.(mem := Store(a.mem, at, item)), past)
  {
    if past.Kept? {
      TileForward(a.mem, a.r, past.items, past.end);
      TileKept(a.mem, a.r, past.items, past.end, at, item);
    }
  }

  lemma StopAfterWrap(w: nat, lap: seq<Item>, size: nat)
    requires lap != [] && w <= SIZE && LastBoundary(w, lap) >= size
    ensures StopAhead(Kept(lap, w), size)
  {
  }

  // ----- when it hangs -----

  /** `r` after n turns of the reclaiming loop. */
  function After(mem: map<nat, Cell>, r: nat, n: nat): nat
    decreases n
  {
    if n == 0 then r else After(mem, Advance(mem, r), n - 1)
  }

  /** Where the condition of Hangs holds the loop never ends: after any number of turns `w` is at
      the start, at or before `r`, and the room still reaches past `r`. */
  lemma HangsForever(a: Arena, past: Past, lap: seq<Item>, size: nat, n: nat)
    requires Rep(a, past, lap) && Hangs(a, lap, size, true)
    ensures After(Wrapped(a).mem, 0, n) < size
  {
    WrapKeeps(a, past, lap);
    TileForward(a.mem, 0, lap, a.w);
    NeverStops(Wrapped(a), Kept(lap, a.w), lap, a.w, size, n);
  }

  lemma {:induction false} NeverStops(a: Arena, past: Past, lap: seq<Item>, end: nat, size: nat, n: nat)
    requires a.w == 0 && PastOk(a, past) && (past.Kept? ==> past.end == end && EndsWith(lap, past.items))
    requires PastOk(a.(r := 0), Kept(lap, end)) && lap != [] && LastBoundary(end, lap) < size <= SIZE && a.r < size
    ensures After(a.mem, a.r, n) < size
    decreases n
  {
    if n > 0 {
      var from := if past.Kept? then past else Kept(lap, end);
      AdvanceDrops(a, from);
      var a' := a.(r := Advance(a.mem, a.r));
      if a'.r == 0 {
        NeverStops(a', Gone, lap, end, size, n - 1);
      } else {
        var past' := Kept(from.items[1..], end);
        BeforeLast(a', past'.items, lap, end);
        assert EndsWith(lap, past'.items);
        NeverStops(a', past', lap, end, size, n - 1);
      }
    }
  }

  predicate EndsWith(lap: seq<Item>, items: seq<Item>) {
    |items| <= |lap| && items == lap[|lap| - |items|..]
  }

  /** A place on the lap before the end of the arena is not past its last one. */
  lemma BeforeLast(a: Arena, items: seq<Item>, lap: seq<Item>, end: nat)
    requires PastOk(a, Kept(items, end)) && EndsWith(lap, items) && lap != []
    ensures a.r <= LastBoundary(end, lap)
  {
    TileForward(a.mem, a.r, items, end);
    if items != [] {
      TileLast(a.mem, a.r, items, end);
    }
  }

  lemma {:induction false} TileLast(mem: map<nat, Cell>, p: nat, items: seq<Item>, q: nat)
    requires Tile(mem, p, items, q) && items != []
    ensures p <= q - items[|items| - 1].size
    decreases |items|
  {
    if |items| > 1 {
      TileLast(mem, p + items[0].size, items[1..], q);
    }
  }

  /** Such a state is reached at once: one entry in a new arena, then a request that is longer than
      the entry and does not fit behind it.  A frame head and a request for the whole arena do. */
  method OneEntryThenHang(first: Item, size: nat) returns (a: FrameArena)
    requires 4 <= first.size < size <= SIZE && first.size % 4 == 0 && first.size + size > SIZE
    ensures Rep(a.State(), Gone, [first]) && Hangs(a.State(), [first], size, true)
    ensures forall n :: After(Wrapped(a.State()).mem, 0, n) < size
  {
    a := new FrameArena();
    var ok, past, lap, gone := a.Add(first, true, Gone, []);
    OnlyEntry(first, gone, Items(past), lap);
    TileOne(a.mem, first, a.w);
    forall n {
      HangsForever(a.State(), Gone, [first], size, n);
    }
  }

  lemma TileOne(mem: map<nat, Cell>, item: Item, q: nat)
    requires Tile(mem, 0, [item], q)
    ensures q == item.size
  {
    assert [item][1..] == [];
  }

  lemma OnlyEntry(first: Item, gone: seq<Item>, items: seq<Item>, lap: seq<Item>)
    requires [] + [] + [first] == gone + items + lap && lap != []
    ensures lap == [first] && items == []
  {
    assert |gone| + |items| + |lap| == 1;
    assert gone == [] && items == [];
    assert gone + items + lap == lap;
  }

  lemma FrameHeadThenHang()
    ensures var a := Arena(map[0 := Full(Item(28, 0))], 0, 28, false);
            Rep(a, Gone, [Item(28, 0)]) && Hangs(a, [Item(28, 0)], SIZE, true)
  {
    var mem := map[0 := Full(Item(28, 0))];
    assert [Item(28, 0)][1..] == [];
    assert Tile(mem, 28, [], 28);
  }
}
