/**
 One CPU's buffer of ring_buffer.c as a bounded queue: events are reserved, committed or discarded
 by a writer that is not interrupted, and consumed by a reader in between.  The order of the pages
 is a list here: first the reader's page, then the ring from the head page on.
 */
module EventFifo {
  import opened Options

  const PAGE_SIZE := 4080        // BUF_PAGE_SIZE
  const MIN_EVENT := 8           // RB_EVNT_MIN_SIZE
  const HEADER := 4              // RB_EVNT_HDR_SIZE
  const SMALL_MAX := 112         // RB_MAX_SMALL_DATA
  const EXTEND := 8              // RB_LEN_TIME_EXTEND
  const DATA_MAX := 4072         // BUF_MAX_DATA_SIZE
  const LIMIT := 1000            // attempts to reserve

  // ----- the length of an event -----

  function Align4(n: nat): (r: nat)
    ensures r % 4 == 0 && n <= r < n + 4
  {
    (n + 3) / 4 * 4
  }

  /** rb_calculate_event_length. */
  function EventLength(length: nat): nat {
    var n := if length == 0 then 1 else length;
    Align4((if n > SMALL_MAX then n + 4 else n) + HEADER)
  }

  /** The header words of a data event: a short length in units of four, or 0 and the length. */
  datatype Coded = Coded(typeLen: nat, array0: nat)

  /** rb_update_event. */
  function Encode(length: nat): Coded
    requires length >= HEADER
  {
    var n := length - HEADER;
    if n > SMALL_MAX then Coded(0, n) else Coded((n + 3) / 4, 0)
  }

  /** rb_event_data_length. */
  function Decode(c: Coded): nat {
    (if c.typeLen > 0 then c.typeLen * 4 else c.array0) + HEADER
  }

  // What is left for data behind the header words.
  function Payload(length: nat): int {
    if length - HEADER > SMALL_MAX then length - HEADER - 4 else length - HEADER
  }

  /** The reader finds the length the writer reserved, which is the least the data fits; a data event's
      type is one of the short ones or 0; data of the greatest size allowed fills a page exactly. */
  lemma LengthRoundTrip(length: nat)
    ensures var n := EventLength(length);
            && MIN_EVENT <= n && n % 4 == 0
            && (forall m: nat :: MIN_EVENT <= m && m % 4 == 0 && length <= Payload(m) ==> n <= m)
            && Decode(Encode(n)) == n && Encode(n).typeLen <= 28
            && length <= Payload(n)
            && (n <= PAGE_SIZE <==> length <= DATA_MAX)
            && (n + EXTEND <= PAGE_SIZE <==> length <= DATA_MAX - EXTEND)
  {
  }

  // ----- pages -----

  /** What lies on a page: a data event, named by its number; a time extension before it; padding. */
  datatype Slot = Data(len: nat, tag: nat) | TimeExtend | Padding(len: nat)

  function Len(s: Slot): nat {
    match s
    case Data(len, _) => len
    case TimeExtend => EXTEND
    case Padding(len) => len
  }

  function Size(slots: seq<Slot>): nat {
    if slots == [] then 0 else Size(slots[..|slots| - 1]) + Len(slots[|slots| - 1])
  }

  function Tags(slots: seq<Slot>): seq<nat> {
    if slots == [] then []
    else
      var last := slots[|slots| - 1];
      Tags(slots[..|slots| - 1]) + if last.Data? then [last.tag] else []
  }

  lemma {:induction false} SizeConcat(a: seq<Slot>, b: seq<Slot>)
    ensures Size(a + b) == Size(a) + Size(b) && Tags(a + b) == Tags(a) + Tags(b)
    decreases |b|
  {
    if b == [] {
      assert a + b == a;
    } else {
      assert (a + b)[..|a + b| - 1] == a + b[..|b| - 1];
      SizeConcat(a, b[..|b| - 1]);
    }
  }

  lemma OneSlot(s: Slot)
    ensures Size([s]) == Len(s) && Tags([s]) == if s.Data? then [s.tag] else []
  {
  }

  /** A buffer page: its events, the write and commit indices, the event count and, on the reader's
      page, the read index. */
  datatype Page = Page(slots: seq<Slot>, write: nat, commit: nat, entries: int, read: nat)

  const EMPTY := Page([], 0, 0, 0, 0)

  /** A page's events: read, ready to be read, and still open. */
  datatype Parts = Parts(done: seq<Slot>, ready: seq<Slot>, open: seq<Slot>)

  const NO_PARTS := Parts([], [], [])

  predicate Sound(slots: seq<Slot>) {
    forall i :: 0 <= i < |slots| ==> Len(slots[i]) >= MIN_EVENT && Len(slots[i]) % 4 == 0
  }

  /** A time extension comes right before its event. */
  predicate Paired(slots: seq<Slot>) {
    forall i :: 0 <= i < |slots| && slots[i].TimeExtend? ==> i + 1 < |slots| && slots[i + 1].Data?
  }

  ghost predicate Holds(g: Page, v: Parts) {
    && g.slots == v.done + v.ready + v.open && Sound(g.slots) && Paired(v.ready) && Paired(v.open)
    && g.read == Size(v.done) && g.commit == Size(v.done) + Size(v.ready)
    && g.write == g.commit + Size(v.open) <= PAGE_SIZE && g.write % 4 == 0
    && g.entries == |Tags(v.done)| + |Tags(v.ready)| + |Tags(v.open)|
  }

  /** The slot at a byte index. */
  function SlotAt(slots: seq<Slot>, index: nat): Option<Slot> {
    if slots == [] then None
    else if Size(slots[..|slots| - 1]) == index then Some(slots[|slots| - 1])
    else SlotAt(slots[..|slots| - 1], index)
  }

  lemma {:induction false} SlotFound(a: seq<Slot>, s: Slot, b: seq<Slot>)
    requires Len(s) > 0
    ensures SlotAt(a + [s] + b, Size(a)) == Some(s)
    decreases |b|
  {
    var all := a + [s] + b;
    if b == [] {
      assert all[..|all| - 1] == a;
    } else {
      assert all[..|all| - 1] == a + [s] + b[..|b| - 1];
      SizeConcat(a, [s] + b[..|b| - 1]);
      SizeConcat([s], b[..|b| - 1]);
      OneSlot(s);
      assert a + [s] + b[..|b| - 1] == a + ([s] + b[..|b| - 1]);
      SlotFound(a, s, b[..|b| - 1]);
    }
  }

  // ----- one page's changes -----

  lemma SoundConcat(a: seq<Slot>, b: seq<Slot>)
    ensures Sound(a) && Sound(b) ==> Sound(a + b)
    ensures Paired(a) && Paired(b) ==> Paired(a + b)
  {
  }

  /** More open slots at the write index. */
  lemma {:induction false} Opened(g: Page, v: Parts, more: seq<Slot>)
    requires Holds(g, v) && Sound(more) && Paired(more) && g.write + Size(more) <= PAGE_SIZE && Size(more) % 4 == 0
    ensures Holds(g.(slots := g.slots + more, write := g.write + Size(more), entries := g.entries + |Tags(more)|),
                  v.(open := v.open + more))
  {
    SizeConcat(v.open, more);
    SoundConcat(g.slots, more);
    SoundConcat(v.open, more);
    hide Size, Tags, Sound, Paired;
    assert g.slots + more == v.done + v.ready + (v.open + more);
  }

  /** Everything open becomes ready: the commit index is set to the write index. */
  lemma Committed(g: Page, v: Parts)
    requires Holds(g, v)
    ensures Holds(g.(commit := g.write), Parts(v.done, v.ready + v.open, []))
    ensures Tags(v.ready + v.open) == Tags(v.ready) + Tags(v.open)
  {
    SizeConcat(v.ready, v.open);
    SoundConcat(v.ready, v.open);
    assert g.slots == v.done + (v.ready + v.open) + [];
  }

  /** The slots before a byte index. */
  function Before(slots: seq<Slot>, index: nat): seq<Slot> {
    if slots == [] || Size(slots) <= index then slots else Before(slots[..|slots| - 1], index)
  }

  lemma {:induction false} BeforeFound(a: seq<Slot>, b: seq<Slot>)
    requires Sound(b)
    ensures Before(a + b, Size(a)) == a
    decreases |b|
  {
    if b == [] {
      assert a + b == a;
    } else {
      assert (a + b)[..|a + b| - 1] == a + b[..|b| - 1];
      SizeConcat(a, b);
      assert Len(b[|b| - 1]) > 0;
      BeforeFound(a, b[..|b| - 1]);
    }
  }

  /** The open slots are taken back. */
  lemma Withdrawn(g: Page, v: Parts)
    requires Holds(g, v)
    ensures g.write >= Size(v.open)
    ensures Holds(g.(slots := Before(g.slots, g.write - Size(v.open)), write := g.write - Size(v.open),
                     entries := g.entries - |Tags(v.open)|),
                  v.(open := []))
  {
    assert Sound(v.done + v.ready) && Sound(v.open) by {
      assert forall i :: 0 <= i < |v.done + v.ready| ==> g.slots[i] == (v.done + v.ready)[i];
      assert forall i :: 0 <= i < |v.open| ==> g.slots[|v.done + v.ready| + i] == v.open[i];
    }
    SizeConcat(v.done, v.ready);
    BeforeFound(v.done + v.ready, v.open);
    assert v.done + v.ready == v.done + v.ready + [];
    SoundSize(v.done + v.ready);
  }

  lemma {:induction false} SoundSize(slots: seq<Slot>)
    requires Sound(slots)
    ensures Size(slots) % 4 == 0
    decreases |slots|
  {
    if slots != [] {
      SoundSize(slots[..|slots| - 1]);
      assert Len(slots[|slots| - 1]) % 4 == 0;
    }
  }

  /** The reader passes the first ready slot, which is the one at its read index. */
  lemma Passed(g: Page, v: Parts)
    requires Holds(g, v) && v.ready != []
    ensures SlotAt(g.slots, g.read) == Some(v.ready[0]) && g.read < g.commit
    ensures Holds(g.(read := g.read + Len(v.ready[0])), Parts(v.done + [v.ready[0]], v.ready[1..], v.open))
    ensures Tags(v.ready) == Tags([v.ready[0]]) + Tags(v.ready[1..])
  {
    var s := v.ready[0];
    assert v.ready == [s] + v.ready[1..];
    assert g.slots == v.done + [s] + (v.ready[1..] + v.open);
    assert g.slots[|v.done|] == s;
    SlotFound(v.done, s, v.ready[1..] + v.open);
    SizeConcat([s], v.ready[1..]);
    SizeConcat(v.done, [s]);
    OneSlot(s);
    assert g.slots == (v.done + [s]) + v.ready[1..] + v.open;
  }

  lemma NothingReady(g: Page, v: Parts)
    requires Holds(g, v)
    ensures g.read < g.commit <==> v.ready != []
  {
    if v.ready != [] {
      var s := v.ready[0];
      assert v.ready == [s] + v.ready[1..];
      assert g.slots[|v.done|] == s;
      SizeConcat([s], v.ready[1..]);
      OneSlot(s);
    }
  }

  // ----- the queue -----

  /** The committed events not read yet, oldest first. */
  function Queue(views: seq<Parts>): seq<nat> {
    if views == [] then [] else Tags(views[0].ready) + Queue(views[1..])
  }

  lemma {:induction false} QueueConcat(a: seq<Parts>, b: seq<Parts>)
    ensures Queue(a + b) == Queue(a) + Queue(b)
    decreases |a|
  {
    if a == [] {
      assert a + b == b;
    } else {
      assert (a + b)[1..] == a[1..] + b;
      QueueConcat(a[1..], b);
    }
  }

  lemma QueueAt(views: seq<Parts>, i: nat, v: Parts)
    requires i < |views|
    ensures Queue(views) == Queue(views[..i]) + Tags(views[i].ready) + Queue(views[i + 1..])
    ensures Queue(views[i := v]) == Queue(views[..i]) + Tags(v.ready) + Queue(views[i + 1..])
  {
    QueueConcat(views[..i], views[i..]);
    assert views == views[..i] + views[i..] && views[i..][1..] == views[i + 1..];
    var views' := views[i := v];
    QueueConcat(views[..i], [v] + views[i + 1..]);
    assert views' == views[..i] + ([v] + views[i + 1..]);
    assert ([v] + views[i + 1..])[1..] == views[i + 1..];
  }

  lemma {:induction false} QueueEmpty(views: seq<Parts>)
    requires forall i :: 0 <= i < |views| ==> views[i].ready == []
    ensures Queue(views) == []
  {
    if views != [] {
      QueueEmpty(views[1..]);
    }
  }

  lemma {:induction false} QueueSame(a: seq<Parts>, b: seq<Parts>)
    requires |b| <= |a| && forall i :: 0 <= i < |b| ==> a[i].ready == b[i].ready
    requires forall i :: |b| <= i < |a| ==> a[i].ready == []
    ensures Queue(a) == Queue(b)
    decreases |b|
  {
    hide Tags;
    if b == [] {
      QueueEmpty(a);
    } else {
      QueueSame(a[1..], b[1..]);
    }
  }

  // ----- whole pages lost -----

  /** The ready events of v are those of v0 without the pages 1 to gone. */
  ghost predicate Slid(v0: seq<Parts>, v: seq<Parts>, gone: nat) {
    && |v| == |v0| && gone < |v0| && v[0].ready == v0[0].ready
    && (forall i :: 1 <= i < |v| - gone ==> v[i].ready == v0[i + gone].ready)
    && (forall i :: 1 <= i && |v| - gone <= i < |v| ==> v[i].ready == [])
  }

  lemma SlidStill(v: seq<Parts>)
    requires |v| > 0
    ensures Slid(v, v, 0)
  {
  }

  lemma SlidBound(v0: seq<Parts>, v: seq<Parts>, gone: nat)
    requires Slid(v0, v, gone)
    ensures gone < |v0|
  {
  }

  lemma NothingLost(v: seq<Parts>)
    requires |v| > 0
    ensures Queue(v[1..1]) == []
  {
  }

  lemma {:induction false} SlidOn(v0: seq<Parts>, v1: seq<Parts>, v: seq<Parts>, gone: nat, more: nat)
    requires Slid(v0, v1, gone) && Slid(v1, v, more) && gone + more < |v0| == |v1|
    ensures Slid(v0, v, gone + more)
  {
    forall i | 1 <= i < |v| - (gone + more) ensures v[i].ready == v0[i + (gone + more)].ready {
      assert v[i].ready == v1[i + more].ready;
    }
    forall i | 1 <= i && |v| - (gone + more) <= i < |v| ensures v[i].ready == [] {
      if i < |v| - more {
        assert v[i].ready == v1[i + more].ready;
      }
    }
  }

  /** What is lost is the events of the oldest pages of the ring, whole and in one piece. */
  lemma {:induction false} SlidQueue(v0: seq<Parts>, v: seq<Parts>, gone: nat)
    requires |v0| > 0 && Slid(v0, v, gone)
    ensures Queue(v0) == Tags(v0[0].ready) + Queue(v0[1..1 + gone]) + Queue(v0[1 + gone..])
    ensures Queue(v) == Tags(v0[0].ready) + Queue(v0[1 + gone..])
  {
    assert v0[1..] == v0[1..1 + gone] + v0[1 + gone..];
    QueueConcat(v0[1..1 + gone], v0[1 + gone..]);
    QueueSame(v[1..], v0[1 + gone..]);
    Associate(Tags(v0[0].ready), Queue(v0[1..1 + gone]), Queue(v0[1 + gone..]));
  }

  /** Losing a stretch in the middle keeps the order. */
  lemma StillIncreasing(taken: seq<nat>, first: seq<nat>, lost: seq<nat>, rest: seq<nat>, below: int)
    requires Increasing(taken + (first + lost + rest), below)
    ensures Increasing(taken + (first + rest), below)
  {
    hide Increasing;
    assert taken + (first + lost + rest) == taken + first + lost + rest;
    IncreasingWithout(taken + first, lost, rest, below);
    assert taken + (first + rest) == taken + first + rest;
  }

  lemma Associate(a: seq<nat>, b: seq<nat>, c: seq<nat>)
    ensures a + (b + c) == a + b + c
  {
  }

  // ----- the buffer -----

  /** The event the writer has reserved: its bytes with the time extension, and its number. */
  datatype Held = Held(length: nat, tag: nat)

  /** How one attempt to reserve ends. */
  datatype Attempted = Stored | TryAgain | Full

  /** The slots of a reserved event. */
  function EventSlots(n: nat, extend: bool, tag: nat): seq<Slot> {
    if extend then [TimeExtend, Data(n, tag)] else [Data(n, tag)]
  }

  /** The bytes the event takes at attempt k: with the time extension if the clock asks for one. */
  function Needed(k: nat, length: nat, late: nat -> bool): nat {
    EventLength(length) + if late(k) then EXTEND else 0
  }

  /** Attempt k fits; every attempt but the first finds an empty page. */
  predicate FitsAt(k: nat, write: nat, length: nat, late: nat -> bool) {
    (if k == 1 then write else 0) + Needed(k, length, late) <= PAGE_SIZE
  }

  /** How often the tail can move on from `tail`: to the end of the ring and then, in overwrite mode,
      over every page before the commit page. */
  function Moves(last: nat, tail: nat, commit: nat, overwrite: bool): nat
    requires tail <= last
  {
    last - tail + if overwrite && commit > 0 then commit - 1 else 0
  }

  /** After `tries` attempts: the last one is the first that fits, or none of those allowed does; the
      pages given up are those the tail moved over past the end of the ring. */
  ghost predicate Tried(ok: bool, tries: nat, gone: nat, last: nat, tail: nat, commit: nat, overwrite: bool,
                        write: nat, length: nat, late: nat -> bool)
    requires tail <= last
  {
    var all := Moves(last, tail, commit, overwrite);
    var moved := if ok then tries - 1 else if all < LIMIT then all else LIMIT;
    && 1 <= tries <= LIMIT && tries <= all + 1
    && (forall j :: 1 <= j < tries ==> !FitsAt(j, write, length, late))
    && ok == FitsAt(tries, write, length, late)
    && (!ok ==> tries == LIMIT || tries == all + 1)
    && gone == if moved > last - tail then moved - (last - tail) else 0
  }

  /** The event fits a page at every attempt. */
  ghost predicate AlwaysFits(length: nat, late: nat -> bool) {
    length <= DATA_MAX - EXTEND || (length <= DATA_MAX && forall k :: !late(k))
  }

  /** An event that fits an empty page at every attempt is stored at the second at the latest. */
  lemma {:induction false} TriedWhenFits(ok: bool, tries: nat, gone: nat, last: nat, tail: nat, overwrite: bool, write: nat,
                                         length: nat, late: nat -> bool)
    requires 2 <= last && tail <= last && Tried(ok, tries, gone, last, tail, tail, overwrite, write, length, late)
    ensures AlwaysFits(length, late) ==>
              gone <= 1 && (ok <==> overwrite || tail < last || write + Needed(1, length, late) <= PAGE_SIZE)
  {
    LengthRoundTrip(length);
    hide EventLength;
    if AlwaysFits(length, late) {
      assert FitsAt(2, write, length, late);
    }
  }

  /** An event that fits a page at no attempt costs every page before the commit page. */
  lemma {:induction false} TriedWhenNot(ok: bool, tries: nat, gone: nat, last: nat, tail: nat, overwrite: bool, write: nat,
                                        length: nat, late: nat -> bool)
    requires 2 <= last && tail <= last && Tried(ok, tries, gone, last, tail, tail, overwrite, write, length, late)
    ensures DATA_MAX - EXTEND < length && (forall k :: late(k)) ==>
              !ok && (overwrite && last < LIMIT && tail > 0 ==> gone == tail - 1)
  {
    LengthRoundTrip(length);
    hide EventLength;
  }

  lemma EventSlotsFit(n: nat, extend: bool, tag: nat)
    requires n >= MIN_EVENT && n % 4 == 0
    ensures var s := EventSlots(n, extend, tag);
            Sound(s) && Paired(s) && Tags(s) == [tag] && Size(s) == n + if extend then EXTEND else 0
  {
    if extend {
      assert [TimeExtend, Data(n, tag)][..1] == [TimeExtend];
      OneSlot(TimeExtend);
    }
  }

  /** The pages hold their parts.  From the commit page on nothing is ready behind it, and up to the
      tail page only padding is open; pages past the tail are empty; no page left behind is empty. */
  ghost predicate Shape(pages: seq<Page>, views: seq<Parts>, commit: nat, tail: nat): (r: bool)
    ensures r ==> |pages| == |views| >= 3 && commit <= tail < |pages|
  {
    && |pages| == |views| >= 3 && commit <= tail < |pages|
    && (forall i :: 0 <= i < |pages| ==> Holds(pages[i], views[i]))
    && (forall i :: 0 <= i < commit ==> views[i].open == [])
    && (forall i :: commit < i < |pages| ==> views[i].ready == [])
    && (forall i :: commit <= i < tail ==> Tags(views[i].open) == [])
    && (forall i :: tail < i < |pages| ==> views[i] == NO_PARTS)
    && (forall i :: 0 < i < |pages| ==> views[i].done == [])
    && (forall i :: 0 < i < tail ==> views[i].ready != [] || views[i].open != [])
  }

  /** What is open on the tail page is the reserved event. */
  ghost predicate HeldOk(v: Parts, held: Option<Held>) {
    match held
    case None => v.open == []
    case Some(h) => Tags(v.open) == [h.tag] && Size(v.open) == h.length
  }

  /** Event numbers in the order they were committed, each once. */
  ghost predicate Increasing(s: seq<nat>, below: int) {
    && (forall i, j :: 0 <= i < j < |s| ==> s[i] < s[j])
    && (forall i :: 0 <= i < |s| ==> s[i] < below)
  }

  lemma {:induction false} IncreasingWithout(a: seq<nat>, b: seq<nat>, c: seq<nat>, below: int)
    requires Increasing(a + b + c, below)
    ensures Increasing(a + c, below)
  {
    forall i | 0 <= i < |a + c|
      ensures (a + c)[i] == (a + b + c)[if i < |a| then i else i + |b|]
    {
    }
  }

  lemma {:induction false} IncreasingMore(s: seq<nat>, next: nat)
    requires Increasing(s, next)
    ensures Increasing(s + [next], next + 1)
  {
  }

  /** Increasing numbers below n that are n many are all of them. */
  lemma {:induction false} NoneMissing(s: seq<nat>, n: nat)
    requires Increasing(s, n) && |s| == n
    ensures forall i :: 0 <= i < n ==> s[i] == i
  {
    if n > 0 {
      var last := |s| - 1;
      assert s[last] < n;
      forall i | 0 <= i < last ensures s[..last][i] < n - 1 {
        assert s[i] < s[last];
      }
      assert s[last] >= last by {
        AtLeast(s, last);
      }
      NoneMissing(s[..last], n - 1);
      forall i | 0 <= i < last ensures s[i] == i {
        assert s[..last][i] == i;
      }
    }
  }

  lemma {:induction false} AtLeast(s: seq<nat>, i: nat)
    requires i < |s| && forall i, j :: 0 <= i < j < |s| ==> s[i] < s[j]
    ensures s[i] >= i
  {
    if i > 0 {
      AtLeast(s, i - 1);
    }
  }

  function Blank(n: nat): (pages: seq<Page>)
    ensures |pages| == n && forall i :: 0 <= i < n ==> pages[i] == EMPTY
  {
    seq(n, i => EMPTY)
  }

  function BlankParts(n: nat): (views: seq<Parts>)
    ensures |views| == n && forall i :: 0 <= i < n ==> views[i] == NO_PARTS
  {
    seq(n, i => NO_PARTS)
  }

  lemma BlankShape(n: nat)
    requires n >= 2
    ensures Shape(Blank(n + 1), BlankParts(n + 1), 1, 1) && Queue(BlankParts(n + 1)) == []
    ensures HeldOk(BlankParts(n + 1)[1], None)
  {
    EmptyHolds();
    hide Holds;
    QueueEmpty(BlankParts(n + 1));
  }

  lemma EmptyHolds()
    ensures Holds(EMPTY, NO_PARTS)
  {
  }

  // ----- one step's effect on the pages -----

  lemma SoundOne(s: Slot)
    requires Len(s) >= MIN_EVENT && Len(s) % 4 == 0 && !s.TimeExtend?
    ensures Sound([s]) && Paired([s])
  {
  }

  lemma PadPage(g: Page, v: Parts)
    requires Holds(g, v) && v.open == [] && g.write <= PAGE_SIZE - MIN_EVENT
    ensures var pad := Padding(PAGE_SIZE - g.write);
            && Holds(g.(slots := g.slots + [pad], write := PAGE_SIZE), v.(open := [pad])) && Tags([pad]) == []
  {
    hide Holds, Size, Tags, Sound, Paired;
    var pad := Padding(PAGE_SIZE - g.write);
    HoldsAligned(g, v);
    OneSlot(pad);
    SoundOne(pad);
    Opened(g, v, [pad]);
    assert v.open + [pad] == [pad];
  }

  lemma EmptyPage(g: Page)
    requires Holds(g, NO_PARTS)
    ensures g == EMPTY
  {
  }

  lemma ReadyPage(g: Page, v: Parts)
    requires Holds(g, v) && v.done == []
    ensures g.read == 0 && (v.open == [] ==> g.entries == |Tags(v.ready)|)
    ensures g.write > PAGE_SIZE - MIN_EVENT ==> v.ready != [] || v.open != []
  {
  }

  lemma HoldsAligned(g: Page, v: Parts)
    requires Holds(g, v)
    ensures g.write % 4 == 0
  {
  }

  lemma {:induction false} PadTail(pages: seq<Page>, views: seq<Parts>, commit: nat, tail: nat)
    requires Shape(pages, views, commit, tail) && views[tail].open == []
    requires pages[tail].write <= PAGE_SIZE - MIN_EVENT
    ensures var pad := Padding(PAGE_SIZE - pages[tail].write);
            var g := pages[tail].(slots := pages[tail].slots + [pad], write := PAGE_SIZE);
            var v := views[tail].(open := [pad]);
            Shape(pages[tail := g], views[tail := v], commit, tail) && Tags(v.open) == []
  {
    hide Holds, Tags;
    PadPage(pages[tail], views[tail]);
  }

  lemma {:induction false} PastTail(pages: seq<Page>, views: seq<Parts>, commit: nat, tail: nat)
    requires tail + 1 < |views| && Shape(pages, views, commit, tail)
    ensures views[tail + 1] == NO_PARTS
  {
    hide Holds, Tags;
  }

  /** The tail moves to the next page of the ring, which is empty. */
  lemma {:induction false} TailOn(pages: seq<Page>, views: seq<Parts>, commit: nat, tail: nat)
    requires Shape(pages, views, commit, tail) && Tags(views[tail].open) == [] && tail + 1 < |pages|
    requires tail > 0 ==> views[tail].ready != [] || views[tail].open != []
    ensures pages[tail + 1] == EMPTY && Shape(pages, views, commit, tail + 1)
  {
    hide Holds, Tags;
    EmptyPage(pages[tail + 1]);
  }

  /** One page has left the ring before `at`, an empty one has come in at the end. */
  ghost predicate Shifted<T>(a: seq<T>, b: seq<T>, at: nat, blank: T) {
    && |a| == |b| > at
    && (forall i {:trigger b[i]} :: 0 <= i < at ==> b[i] == a[i])
    && (forall i {:trigger b[i]} :: at <= i < |b| - 1 ==> b[i] == a[i + 1])
    && b[|b| - 1] == blank
  }

  lemma {:induction false} ShapeShifted(pages: seq<Page>, views: seq<Parts>, commit: nat, tail: nat,
                                        pages': seq<Page>, views': seq<Parts>, at: nat)
    requires Shape(pages, views, commit, tail) && at <= 1 && at < commit
    requires Shifted(pages, pages', at, EMPTY) && Shifted(views, views', at, NO_PARTS)
    ensures Shape(pages', views', commit - 1, tail - 1)
  {
    hide Holds, Tags;
    EmptyHolds();
  }

  lemma {:induction false} SlidShifted(v0: seq<Parts>, v: seq<Parts>)
    requires Shifted(v0, v, 1, NO_PARTS)
    ensures Slid(v0, v, 1)
  {
  }

  /** The head page is overwritten: it leaves the front of the ring and comes back empty at its end. */
  lemma {:induction false} HeadOff(pages: seq<Page>, views: seq<Parts>, commit: nat, tail: nat)
    requires Shape(pages, views, commit, tail) && Tags(views[tail].open) == []
    requires commit >= 2 && tail == |pages| - 1
    requires views[tail].ready != [] || views[tail].open != []
    ensures var pages' := [pages[0]] + pages[2..] + [EMPTY];
            var views' := [views[0]] + views[2..] + [NO_PARTS];
            && Shape(pages', views', commit - 1, tail) && Slid(views, views', 1)
            && pages[1].entries == |Tags(views[1].ready)|
            && |Queue(views')| == |Queue(views)| - |Tags(views[1].ready)|
  {
    hide Holds, Tags, Queue, Slid;
    var pages' := [pages[0]] + pages[2..] + [EMPTY];
    var views' := [views[0]] + views[2..] + [NO_PARTS];
    ReadyPage(pages[1], views[1]);
    assert Shifted(pages, pages', 1, EMPTY) && Shifted(views, views', 1, NO_PARTS);
    hide Shifted;
    ShapeShifted(pages, views, commit, tail, pages', views', 1);
    SlidShifted(views, views');
    assert views'[tail - 1] == views[tail];
    TailOn(pages', views', commit - 1, tail - 1);
    SlidOne(views, views');
  }

  lemma SlidOne(v0: seq<Parts>, v: seq<Parts>)
    requires |v0| > 0 && Slid(v0, v, 1)
    ensures |v0| > 1 && |Queue(v)| == |Queue(v0)| - |Tags(v0[1].ready)|
  {
    hide Queue, Tags;
    SlidQueue(v0, v, 1);
    OneView(v0[1]);
    assert v0[1..2] == [v0[1]];
  }

  /** The reader swaps its page, which it has finished, for the head page. */
  lemma {:induction false} ReaderOn(pages: seq<Page>, views: seq<Parts>, commit: nat, tail: nat)
    requires Shape(pages, views, commit, tail) && views[0].ready == [] && commit > 0
    ensures var pages' := pages[1..] + [EMPTY];
            var views' := views[1..] + [NO_PARTS];
            && Shape(pages', views', commit - 1, tail - 1) && Queue(views') == Queue(views)
            && pages[1].read == 0 && views'[tail - 1] == views[tail]
            && (commit > 1 ==> views'[0].ready != [])
  {
    hide Holds, Tags, Queue;
    var pages' := pages[1..] + [EMPTY];
    var views' := views[1..] + [NO_PARTS];
    ReadyPage(pages[1], views[1]);
    assert Shifted(pages, pages', 0, EMPTY) && Shifted(views, views', 0, NO_PARTS);
    hide Shifted;
    ShapeShifted(pages, views, commit, tail, pages', views', 0);
    QueueHead(views);
    QueueSame(views', views[1..]);
  }

  lemma NoTags()
    ensures Tags([]) == []
  {
  }

  lemma QueueHead(views: seq<Parts>)
    requires views != [] && views[0].ready == []
    ensures Queue(views) == Queue(views[1..])
  {
  }

  lemma OneView(v: Parts)
    ensures Queue([v]) == Tags(v.ready)
  {
    assert Queue([v][1..]) == [];
  }

  /** Setting the commit index of the commit page to its write index. */
  lemma {:induction false} PublishQueue(pages: seq<Page>, views: seq<Parts>, c: nat)
    requires |pages| == |views| && c < |pages| && Holds(pages[c], views[c])
    requires forall i :: c < i < |views| ==> views[i].ready == []
    ensures var v := views[c];
            var v' := Parts(v.done, v.ready + v.open, []);
            && Holds(pages[c].(commit := pages[c].write), v')
            && Queue(views[c := v']) == Queue(views) + Tags(v.open)
  {
    var v := views[c];
    Committed(pages[c], v);
    QueueAt(views, c, Parts(v.done, v.ready + v.open, []));
    QueueEmpty(views[c + 1..]);
    Regroup(Queue(views[..c]), Tags(v.ready), Tags(v.open));
  }

  lemma Regroup(a: seq<nat>, b: seq<nat>, c: seq<nat>)
    ensures a + (b + c) + [] == a + b + [] + c
  {
  }

  lemma {:induction false} ReaderPage(pages: seq<Page>, views: seq<Parts>, commit: nat, tail: nat)
    requires Shape(pages, views, commit, tail)
    ensures Holds(pages[0], views[0])
    ensures commit == 0 && views[0].ready == [] ==> Queue(views) == []
  {
    hide Holds, Tags, Queue;
    if commit == 0 && views[0].ready == [] {
      QueueEmpty(views);
    }
  }

  /** What the reader finds at its read index. */
  lemma FirstReady(pages: seq<Page>, views: seq<Parts>, commit: nat, tail: nat)
    requires Shape(pages, views, commit, tail) && views[0].ready != []
    ensures var r := views[0].ready;
            && SlotAt(pages[0].slots, pages[0].read) == Some(r[0])
            && (r[0].TimeExtend? ==> |r| > 1 && r[1].Data?)
  {
    assert Holds(pages[0], views[0]);
    Passed(pages[0], views[0]);
  }

  lemma QueueFront(views: seq<Parts>, v: Parts)
    requires views != [] && views[0].ready != [] && v.ready == views[0].ready[1..]
    ensures Queue(views) == Tags([views[0].ready[0]]) + Queue(views[0 := v])
  {
    var r := views[0].ready;
    assert r == [r[0]] + r[1..];
    SizeConcat([r[0]], r[1..]);
    assert views[0 := v][1..] == views[1..];
    Associate(Tags([r[0]]), Tags(r[1..]), Queue(views[1..]));
  }

  class CpuBuffer {
    const overwrite: bool
    var pages: seq<Page>
    var commit: nat       // commit_page
    var tail: nat         // tail_page
    var held: Option<Held>
    var entries: nat
    var overrun: int
    var read: int
    ghost var views: seq<Parts>
    ghost var taken: seq<nat>     // the numbers of the events consumed so far

    /** A new buffer: an empty reader page and a ring of n empty pages, the writer on the first. */
    constructor (n: nat, overwrite: bool)
      requires n >= 2
      ensures Valid() && Queue(views) == [] && held == None && this.overwrite == overwrite
      ensures |pages| == n + 1 && taken == []
    {
      hide Shape, Queue, HeldOk;
      this.overwrite := overwrite;
      pages, views := Blank(n + 1), BlankParts(n + 1);
      commit, tail, held := 1, 1, None;
      entries, overrun, read := 0, 0, 0;
      taken := [];
      BlankShape(n);
    }

    /** Of all events ever committed, numbered in that order, those consumed and those still stored
        are in order and each once; the counters account for the others, which only a buffer in
        overwrite mode has. */
    ghost predicate Counted()
      reads this
    {
      && entries - overrun - read == |Queue(views)| && read == |taken|
      && Increasing(taken + Queue(views), entries)
      && overrun >= 0 && (!overwrite ==> overrun == 0)
    }

    ghost predicate Valid()
      reads this
    {
      && Shape(pages, views, commit, tail) && HeldOk(views[tail], held) && Counted()
      && (held.None? ==> commit == tail)
      && (held.Some? ==> held.value.tag == entries)
    }

    /** rb_reset_tail: an event crossed the end of the tail page, which is padded if there is room
        for any event. */
    method ResetTail()
      requires Shape(pages, views, commit, tail) && views[tail].open == []
      modifies this`pages, this`views
      ensures Shape(pages, views, commit, tail) && Slid(old(views), views, 0)
      ensures Tags(views[tail].open) == [] && Queue(views) == Queue(old(views)) && |pages| == old(|pages|)
      ensures tail > 0 ==> views[tail].ready != [] || views[tail].open != []
    {
      hide Queue, Holds, Tags;
      if pages[tail].write <= PAGE_SIZE - MIN_EVENT {
        PadTail(pages, views, commit, tail);
        var pad := Padding(PAGE_SIZE - pages[tail].write);
        pages := pages[tail := pages[tail].(slots := pages[tail].slots + [pad], write := PAGE_SIZE)];
        views := views[tail := views[tail].(open := [pad])];
        QueueSame(views, old(views));
      } else {
        NoTags();
        if tail > 0 {
          ReadyPage(pages[tail], views[tail]);
        }
      }
    }

    /** rb_move_tail: the writer leaves the tail page, or gives up because the next page is the
        commit page or the head page of a buffer that is full. */
    method MoveTail() returns (again: bool, ghost off: nat)
      requires Shape(pages, views, commit, tail) && views[tail].open == []
      requires entries - overrun - read == |Queue(views)|
      modifies this`pages, this`commit, this`tail, this`overrun, this`views
      ensures Shape(pages, views, commit, tail) && |pages| == old(|pages|)
      ensures entries - overrun - read == |Queue(views)| && overrun >= old(overrun)
      ensures Slid(old(views), views, off) && off <= 1 && off <= old(commit) && commit == old(commit) - off
      ensures off == 1 ==> overwrite && old(commit) >= 2
      ensures !overwrite ==> overrun == old(overrun)
      ensures Tags(views[tail].open) == []
      ensures again ==> views[tail] == NO_PARTS && pages[tail] == EMPTY
      ensures again ==> if old(tail) < |pages| - 1 then tail == old(tail) + 1 && off == 0 else tail == old(tail) && off == 1
      ensures again <==> old(tail) < |pages| - 1 || (overwrite && old(commit) >= 2)
    {
      hide Holds, Tags, Queue, Shape, Slid;
      ResetTail();
      ghost var v1 := views;
      off := 0;
      var moved := false;
      var last := |pages| - 1;
      var next := if tail == last then 1 else tail + 1;
      again := true;
      if next == commit {
        again := false;
      } else if next == 1 {            // the head page
        if commit != 0 {               // the commit page is not the reader's page
          if !overwrite {
            again := false;
          } else {
            HeadOff(pages, views, commit, tail);
            overrun := overrun + pages[1].entries;
            pages := [pages[0]] + pages[2..] + [EMPTY];
            views := [views[0]] + views[2..] + [NO_PARTS];
            NoTags();
            commit := commit - 1;
            off, moved := 1, true;
            SlidOn(old(views), v1, views, 0, 1);
          }
        } else if commit != tail {
          again := false;
        }
      }
      if again && !moved {
        PastTail(pages, views, commit, tail);
        TailOn(pages, views, commit, tail);
        NoTags();
        tail := next;
        assert pages[tail := EMPTY] == pages;
        pages := pages[tail := EMPTY];
      }
    }

    /** The event goes to the write index of the tail page. */
    method Place(n: nat, extend: bool)
      requires Shape(pages, views, commit, tail) && views[tail].open == [] && n >= MIN_EVENT && n % 4 == 0
      requires pages[tail].write + (if extend then EXTEND else 0) + n <= PAGE_SIZE
      modifies this`pages, this`views, this`held
      ensures Shape(pages, views, commit, tail) && |pages| == old(|pages|) && Slid(old(views), views, 0)
      ensures Queue(views) == Queue(old(views))
      ensures held == Some(Held(n + if extend then EXTEND else 0, entries)) && HeldOk(views[tail], held)
      ensures views[tail].open == EventSlots(n, extend, entries)
    {
      hide Queue, Holds, Tags, Size, EventSlots, Sound, Paired;
      EventSlotsFit(n, extend, entries);
      ghost var v, g := views[tail], pages[tail];
      var more := EventSlots(n, extend, entries);
      HoldsAligned(g, v);
      Opened(g, v, more);
      assert v.open + more == more;
      var need := if extend then n + EXTEND else n;
      pages := pages[tail := pages[tail].(slots := pages[tail].slots + more, write := pages[tail].write + need,
                                          entries := pages[tail].entries + 1)];
      views := views[tail := v.(open := more)];
      held := Some(Held(need, entries));
      QueueSame(views, old(views));
    }

    /** rb_end_commit of the outermost writer: everything written becomes readable. */
    method EndCommit()
      requires Shape(pages, views, commit, tail)
      modifies this`pages, this`commit, this`views, this`held
      ensures Shape(pages, views, commit, tail) && commit == tail && |pages| == old(|pages|)
      ensures HeldOk(views[tail], held) && held == None
      ensures Queue(views) == Queue(old(views)) + Tags(old(views)[tail].open)
      ensures forall i :: 0 <= i < |pages| ==> pages[i].write == old(pages)[i].write
    {
      hide Holds, Queue, Tags;
      ghost var added, queue := Tags(views[tail].open), Queue(views);
      while commit != tail
        invariant Shape(pages, views, commit, tail) && |pages| == old(|pages|)
        invariant Tags(views[tail].open) == added && Queue(views) == queue
        invariant forall i :: 0 <= i < |pages| ==> pages[i].write == old(pages)[i].write
        decreases tail - commit
      {
        PublishQueue(pages, views, commit);
        ghost var v := views[commit];
        pages := pages[commit := pages[commit].(commit := pages[commit].write)];
        views := views[commit := Parts(v.done, v.ready + v.open, [])];
        commit := commit + 1;
      }
      PublishQueue(pages, views, commit);
      ghost var v := views[commit];
      pages := pages[commit := pages[commit].(commit := pages[commit].write)];
      views := views[commit := Parts(v.done, v.ready + v.open, [])];
      held := None;
    }

    /** __rb_reserve_next: the event is stored on the tail page, or the tail moves on. */
    method ReserveNext(n: nat, extend: bool) returns (result: Attempted, ghost off: nat)
      requires Shape(pages, views, commit, tail) && views[tail].open == [] && held == None
      requires entries - overrun - read == |Queue(views)| && n >= MIN_EVENT && n % 4 == 0
      modifies this`pages, this`commit, this`tail, this`overrun, this`views, this`held
      ensures Shape(pages, views, commit, tail) && |pages| == old(|pages|)
      ensures entries - overrun - read == |Queue(views)|
      ensures overrun >= old(overrun) && (!overwrite ==> overrun == old(overrun))
      ensures Slid(old(views), views, off) && off <= 1 && off <= old(commit) && commit == old(commit) - off
      ensures off == 1 ==> overwrite && old(commit) >= 2
      ensures result == Stored <==> old(pages[tail].write) + (if extend then n + EXTEND else n) <= PAGE_SIZE
      ensures result == Full ==> !(old(tail) < |pages| - 1 || (overwrite && old(commit) >= 2)) && off == 0
      ensures result == Stored ==>
                && held == Some(Held(if extend then n + EXTEND else n, entries)) && HeldOk(views[tail], held)
                && off == 0 && tail == old(tail)
      ensures result != Stored ==> held == None && Tags(views[tail].open) == []
      ensures result == TryAgain ==>
                && views[tail].open == [] && pages[tail] == EMPTY
                && if old(tail) < |pages| - 1 then tail == old(tail) + 1 && off == 0 else tail == old(tail) && off == 1
    {
      hide Holds, Tags, Queue, Size, Shape, Slid, HeldOk, EventSlots;
      if pages[tail].write + (if extend then n + EXTEND else n) <= PAGE_SIZE {
        Place(n, extend);
        return Stored, 0;
      }
      var again;
      again, off := MoveTail();
      result := if again then TryAgain else Full;
    }

    /** The attempts of rb_reserve_next_event, each one __rb_reserve_next.  Whether the clock has moved
        too far for a short time stamp is asked anew before each. */
    method Attempt(length: nat, late: nat -> bool) returns (ok: bool, ghost gone: nat, ghost tries: nat)
      requires Shape(pages, views, commit, tail) && views[tail].open == [] && commit == tail && held == None
      requires entries - overrun - read == |Queue(views)| && length <= DATA_MAX
      modifies this`pages, this`commit, this`tail, this`overrun, this`views, this`held
      ensures Shape(pages, views, commit, tail) && |pages| == old(|pages|)
      ensures entries - overrun - read == |Queue(views)|
      ensures Slid(old(views), views, gone) && (gone > 0 ==> overwrite && gone < old(commit))
      ensures overrun >= old(overrun) && (!overwrite ==> overrun == old(overrun))
      ensures ok ==> held.Some? && held.value.tag == entries && HeldOk(views[tail], held)
      ensures !ok ==> held == None && Tags(views[tail].open) == []
      ensures Tried(ok, tries, gone, |pages| - 1, old(tail), old(commit), overwrite, old(pages[tail].write), length, late)
      ensures ok ==> held.value.length == Needed(tries, length, late)
    {
      hide Holds, Tags, Queue, EventLength, Size, Shape, Slid, HeldOk, EventSlots;
      ghost var v0, w0 := views, pages[tail].write;
      gone := 0;
      ok := false;
      NoTags();
      LengthRoundTrip(length);
      var n := EventLength(length);
      var loops: nat := 0;
      SlidStill(views);
      while true
        invariant Shape(pages, views, commit, tail) && views[tail].open == [] && |pages| == old(|pages|)
        invariant commit == old(commit) - gone && gone <= old(commit)
        invariant entries - overrun - read == |Queue(views)|
        invariant Slid(v0, views, gone) && (gone > 0 ==> overwrite && gone < old(commit))
        invariant overrun >= old(overrun) && (!overwrite ==> overrun == old(overrun))
        invariant pages[tail].write == if loops == 0 then w0 else 0
        invariant held == None
        invariant loops == tail - old(tail) + gone <= LIMIT && (gone > 0 ==> tail == |pages| - 1)
        invariant forall j :: 1 <= j <= loops ==> !FitsAt(j, w0, length, late)
        decreases |pages| - 1 - tail + commit
      {
        loops := loops + 1;
        if loops > LIMIT {
          tries := LIMIT;
          break;
        }
        tries := loops;
        ghost var v1 := views;
        var result, off := ReserveNext(n, late(loops));
        SlidOn(v0, v1, views, gone, off);
        gone := gone + off;
        if result != TryAgain {
          ok := result == Stored;
          break;
        }
      }
    }

    /** ring_buffer_lock_reserve.  It succeeds at the first attempt that fits, if one of those allowed
        does.  Only whole pages are lost, the oldest of the ring, at most one of them if the event
        fits a page with its time extension; an event that does not fit is never stored, and in
        overwrite mode what it costs is every page of the ring before the commit page. */
    method Reserve(length: nat, late: nat -> bool) returns (ok: bool, ghost gone: nat, ghost tries: nat)
      requires Valid() && held == None
      modifies this
      ensures Valid() && ok == held.Some? && entries == old(entries) && read == old(read) && taken == old(taken)
      ensures |pages| == old(|pages|) && gone < |old(views)| && (gone > 0 ==> overwrite && gone < old(commit))
      ensures length <= DATA_MAX ==>
                Tried(ok, tries, gone, |pages| - 1, old(tail), old(commit), overwrite, old(pages[tail].write), length, late)
      ensures ok ==> held.value.length == Needed(tries, length, late)
      ensures Queue(old(views))
         == Tags(old(views)[0].ready) + Queue(old(views)[1..1 + gone]) + Queue(old(views)[1 + gone..])
      ensures Queue(views) == Tags(old(views)[0].ready) + Queue(old(views)[1 + gone..])
      ensures overrun == old(overrun) + |Queue(old(views)[1..1 + gone])|
      ensures AlwaysFits(length, late) ==>
                && gone <= 1
                && (ok <==> overwrite || old(tail) < |pages| - 1
                            || old(pages[tail].write) + Needed(1, length, late) <= PAGE_SIZE)
      ensures length > DATA_MAX ==> !ok && gone == 0
      ensures DATA_MAX - EXTEND < length <= DATA_MAX && (forall k :: late(k)) ==>
                !ok && (overwrite && |pages| <= LIMIT && old(commit) > 0 ==> gone == old(commit) - 1)
    {
      hide Holds, Tags, Queue, Increasing, Size, Shape, Slid, EventLength, Tried;
      ghost var v0 := views;
      if length > DATA_MAX {
        ok, gone, tries := false, 0, 0;
        SlidStill(views);
        SlidQueue(v0, views, 0);
        NothingLost(views);
        return;
      }
      ok, gone, tries := Attempt(length, late);
      SlidBound(v0, views, gone);
      TriedWhenFits(ok, tries, gone, |pages| - 1, old(tail), overwrite, old(pages[tail].write), length, late);
      TriedWhenNot(ok, tries, gone, |pages| - 1, old(tail), overwrite, old(pages[tail].write), length, late);
      SlidQueue(v0, views, gone);
      StillIncreasing(taken, Tags(v0[0].ready), Queue(v0[1..1 + gone]), Queue(v0[1 + gone..]), entries);
      if !ok {
        ghost var q := Queue(views);
        EndCommit();
        assert q + [] == q;
      }
    }

    /** ring_buffer_unlock_commit: the reserved event becomes the newest of the queue. */
    method Commit()
      requires Valid() && held.Some?
      modifies this
      ensures Valid() && held == None && Queue(views) == old(Queue(views)) + [old(entries)]
      ensures entries == old(entries) + 1 && overrun == old(overrun) && read == old(read) && taken == old(taken)
    {
      hide Shape, Queue, Increasing, Tags, Size;
      ghost var q := Queue(views);
      entries := entries + 1;
      EndCommit();
      Associate(taken, q, [old(entries)]);
      IncreasingMore(taken + q, old(entries));
    }

    /** ring_buffer_discard_commit: the reserved event is taken back, its space is used again. */
    method Discard()
      requires Valid() && held.Some?
      modifies this
      ensures Valid() && held == None && Queue(views) == old(Queue(views))
      ensures entries == old(entries) && overrun == old(overrun) && read == old(read) && taken == old(taken)
      ensures tail == old(tail) && pages[tail].write == old(pages[tail].write - held.value.length)
    {
      hide Queue, Increasing, Holds, Tags, Size;
      ghost var q, v := Queue(views), views[tail];
      Withdrawn(pages[tail], v);
      var g := pages[tail].(entries := pages[tail].entries - 1);
      g := g.(slots := Before(g.slots, g.write - held.value.length), write := g.write - held.value.length);
      pages := pages[tail := g];
      views := views[tail := v.(open := [])];
      QueueSame(views, old(views));
      NoTags();
      EndCommit();
      assert q + [] == q;
    }

    /** rb_get_reader_page: when the reader has finished its page it swaps it for the head page, unless
        the writer commits on it.  The limit of three rounds is never reached. */
    method GetReaderPage() returns (found: bool)
      requires Valid()
      modifies this`pages, this`commit, this`tail, this`views
      ensures Valid() && Queue(views) == Queue(old(views)) && views[tail] == old(views[tail]) && |pages| == old(|pages|)
      ensures if found then views[0].ready != [] else Queue(views) == []
      ensures commit < old(commit)
           || (commit == old(commit) && tail == old(tail) && pages == old(pages) && views == old(views))
      ensures old(views)[0].ready != [] ==> commit == old(commit)
    {
      hide Holds, Tags, Queue, Increasing, HeldOk, Shape;
      var loops: nat := 0;
      found := true;
      while true
        invariant Shape(pages, views, commit, tail) && |pages| == old(|pages|) && HeldOk(views[tail], held)
        invariant views[tail] == old(views[tail]) && Queue(views) == Queue(old(views)) && (held.None? ==> commit == tail)
        invariant commit < old(commit)
               || (commit == old(commit) && tail == old(tail) && pages == old(pages) && views == old(views))
        invariant old(views)[0].ready != [] ==> commit == old(commit)
        invariant loops <= 1 && found
        invariant loops == 1 && commit > 0 ==> views[0].ready != []
        decreases commit
      {
        loops := loops + 1;
        if loops > 3 {
          found := false;
          break;
        }
        ReaderPage(pages, views, commit, tail);
        NothingReady(pages[0], views[0]);
        if pages[0].read < pages[0].commit {
          break;
        }
        if commit == 0 {
          found := false;
          break;
        }
        ReaderOn(pages, views, commit, tail);
        pages := pages[1..] + [EMPTY];
        views := views[1..] + [NO_PARTS];
        commit, tail := commit - 1, tail - 1;
        assert pages[0 := pages[0].(read := 0)] == pages;
        pages := pages[0 := pages[0].(read := 0)];
      }
    }

    /** rb_advance_reader: the reader passes one slot. */
    method AdvanceReader()
      requires Valid() && views[0].ready != []
      modifies this
      ensures Valid() && held == old(held) && entries == old(entries) && overrun == old(overrun)
      ensures |pages| == old(|pages|) && commit == old(commit) && tail == old(tail)
      ensures views == old(views)[0 := old(views)[0].(done := views[0].done, ready := old(views)[0].ready[1..])]
      ensures taken == old(taken) + Tags([old(views)[0].ready[0]])
      ensures Queue(old(views)) == Tags([old(views)[0].ready[0]]) + Queue(views)
    {
      hide Holds, Queue, Increasing, Size, Tags, SlotAt;
      var found := GetReaderPage();
      ghost var v := views[0];
      Passed(pages[0], v);
      OneSlot(v.ready[0]);
      var s := SlotAt(pages[0].slots, pages[0].read).value;
      QueueFront(views, Parts(v.done + [s], v.ready[1..], v.open));
      if s.Data? {
        read := read + 1;
      }
      pages := pages[0 := pages[0].(read := pages[0].read + Len(s))];
      views := views[0 := Parts(v.done + [s], v.ready[1..], v.open)];
      taken := taken + Tags([s]);
      Associate(old(taken), Tags([s]), Queue(views));
    }

    /** rb_buffer_peek: padding and events are handed out, a time extension is passed over.  The limit
        of two rounds is never reached. */
    method Peek() returns (s: Option<Slot>)
      requires Valid()
      modifies this
      ensures Valid() && held == old(held) && entries == old(entries) && overrun == old(overrun)
      ensures |pages| == old(|pages|) && taken == old(taken) && Queue(views) == Queue(old(views))
      ensures s == None ==> Queue(views) == []
      ensures s.Some? ==> views[0].ready != [] && s.value == views[0].ready[0] && !s.value.TimeExtend?
      ensures commit < old(commit) || (commit == old(commit) && |views[0].ready| <= |old(views)[0].ready|)
    {
      hide Holds, Queue, Increasing, HeldOk, Size, Tags, SlotAt, Shape;
      var loops: nat := 0;
      while true
        invariant Valid() && held == old(held) && entries == old(entries) && overrun == old(overrun)
        invariant |pages| == old(|pages|) && taken == old(taken) && Queue(views) == Queue(old(views))
        invariant commit < old(commit) || (commit == old(commit) && |views[0].ready| <= |old(views)[0].ready|)
        invariant loops <= 1 && (loops == 1 ==> views[0].ready != [] && views[0].ready[0].Data?)
        decreases 1 - loops
      {
        loops := loops + 1;
        if loops > 2 {
          return None;
        }
        var found := GetReaderPage();
        if !found {
          return None;
        }
        FirstReady(pages, views, commit, tail);
        s := SlotAt(pages[0].slots, pages[0].read);
        if !s.value.TimeExtend? {
          return;
        }
        ghost var taken', queue := taken, Queue(views);
        OneSlot(s.value);
        AdvanceReader();
        assert taken' + [] == taken' && [] + Queue(views) == Queue(views);
      }
    }

    /** ring_buffer_consume: the oldest event stored, or none if and only if there is none. */
    method Consume() returns (event: Option<nat>)
      requires Valid()
      modifies this
      ensures Valid() && held == old(held) && entries == old(entries) && overrun == old(overrun)
      ensures event == if Queue(old(views)) == [] then None else Some(Queue(old(views))[0])
      ensures Queue(views) == if event == None then [] else Queue(old(views))[1..]
      ensures taken == old(taken) + if event == None then [] else [event.value]
      ensures |pages| == old(|pages|)
    {
      hide Holds, Queue, Increasing, HeldOk, Size, Tags, Shape;
      while true
        invariant Valid() && held == old(held) && entries == old(entries) && overrun == old(overrun)
        invariant |pages| == old(|pages|) && taken == old(taken) && Queue(views) == Queue(old(views))
        decreases commit, |views[0].ready|
      {
        var s := Peek();
        if s == None {
          return None;
        }
        OneSlot(s.value);
        AdvanceReader();
        if s.value.Data? {
          return Some(s.value.tag);
        }
        assert old(taken) + [] == old(taken) && [] + Queue(views) == Queue(views);
      }
    }
  }

  datatype Op = Reserving(length: nat, late: nat -> bool) | Committing | Discarding | Consuming

  /** Any run from a new buffer on: what was consumed and what is still stored are the committed events
      in the order of their commits; all of them, unless the buffer overwrites its oldest pages. */
  method Run(n: nat, overwrite: bool, ops: seq<Op>) returns (b: CpuBuffer)
    requires n >= 2
    ensures b.Valid() && b.overwrite == overwrite
    ensures Increasing(b.taken + Queue(b.views), b.entries)
    ensures |b.taken + Queue(b.views)| == b.entries - b.overrun
    ensures !overwrite ==>
              |b.taken + Queue(b.views)| == b.entries
              && forall i :: 0 <= i < b.entries ==> (b.taken + Queue(b.views))[i] == i
  {
    hide Queue, Shape, HeldOk, Increasing;
    b := new CpuBuffer(n, overwrite);
    for k := 0 to |ops|
      invariant b.Valid() && b.overwrite == overwrite && fresh(b)
    {
      match ops[k] {
        case Reserving(length, late) =>
          if b.held == None {
            var _, _, _ := b.Reserve(length, late);
          }
        case Committing =>
          if b.held != None {
            b.Commit();
          }
        case Discarding =>
          if b.held != None {
            b.Discard();
          }
        case Consuming =>
          var _ := b.Consume();
      }
    }
    if !overwrite {
      NoneMissing(b.taken + Queue(b.views), b.entries);
    }
  }
}
