/**
 What a frame is, said of the entries alone: a head and what lies between it and the next head, of which
 the registers, memory blocks and variables are its records.  The frames that the pipe delivers and the
 file holds are those, and no others.
 */
module FrameMeaning {
  import opened Options
  import opened PageRing
  import opened PageWalk
  import opened FrameRead
  import opened FrameCollect
  import opened Delivery

  /** Of the six kinds of entry, three are records. */
  predicate IsRecord(e: Entry) {
    !e.Head? && !e.PageBegin? && !e.PageEnd?
  }

  /** `at` are the places, in order, of all entries of the kinds a trace action records. */
  predicate PlacesOf(part: seq<Entry>, at: seq<nat>) {
    && (forall j, k :: 0 <= j < k < |at| ==> at[j] < at[k])
    && (forall k :: 0 <= k < |at| ==> at[k] < |part|)
    && (forall i :: 0 <= i < |part| ==> (i in at <==> IsRecord(part[i])))
  }

  /** The records are the registers, memory blocks and variables among the entries, each once and in
      their order. */
  ghost predicate Holds(records: seq<Entry>, part: seq<Entry>) {
    exists at: seq<nat> :: PlacesOf(part, at) && Picked(records, part, at)
  }

  predicate Picked(records: seq<Entry>, part: seq<Entry>, at: seq<nat>) {
    |records| == |at| && forall k :: 0 <= k < |at| ==> at[k] < |part| && records[k] == part[at[k]]
  }

  lemma FirstIn(a: seq<nat>)
    ensures a != [] ==> a[0] in a
    ensures a != [] ==> exists x :: x in a
  {
  }

  lemma {:induction false} SameRange(a: seq<nat>, b: seq<nat>)
    requires forall j, k :: 0 <= j < k < |a| ==> a[j] < a[k]
    requires forall j, k :: 0 <= j < k < |b| ==> b[j] < b[k]
    requires forall x :: x in a <==> x in b
    ensures a == b
    decreases |a|
  {
    FirstIn(a);
    FirstIn(b);
    if a != [] {
      assert a[0] in b && b[0] in a && a[0] == b[0];
      forall x | x in a[1..] || x in b[1..] ensures x in a[1..] && x in b[1..] {
        assert x in a && x in b && x != a[0];
      }
      SameRange(a[1..], b[1..]);
    }
  }

  /** There is one such list of records. */
  lemma {:induction false} HoldsOne(a: seq<Entry>, b: seq<Entry>, part: seq<Entry>)
    requires Holds(a, part) && Holds(b, part)
    ensures a == b
  {
    var p: seq<nat> :| PlacesOf(part, p) && Picked(a, part, p);
    var q: seq<nat> :| PlacesOf(part, q) && Picked(b, part, q);
    forall x | x in p || x in q ensures x in p && x in q {
      assert 0 <= x < |part|;
    }
    SameRange(p, q);
  }

  function Shifted(at: seq<nat>): (later: seq<nat>)
    ensures |later| == |at| && forall k :: 0 <= k < |at| ==> later[k] == at[k] + 1
  {
    seq(|at|, k requires 0 <= k < |at| => at[k] + 1)
  }

  lemma {:induction false} ShiftedHas(at: seq<nat>, i: nat)
    ensures i in Shifted(at) <==> i > 0 && i - 1 in at
  {
    if i > 0 && i - 1 in at {
      var k :| 0 <= k < |at| && at[k] == i - 1;
      assert Shifted(at)[k] == i;
    }
  }

  /** The places behind one more entry. */
  function Onward(taken: bool, at: seq<nat>): seq<nat> {
    if taken then [0] + Shifted(at) else Shifted(at)
  }

  lemma {:induction false} OnwardOrder(taken: bool, at: seq<nat>)
    requires forall j, k :: 0 <= j < k < |at| ==> at[j] < at[k]
    ensures var on := Onward(taken, at); forall j, k :: 0 <= j < k < |on| ==> on[j] < on[k]
  {
  }

  lemma {:induction false} OnwardHas(taken: bool, at: seq<nat>, i: nat)
    ensures i in Onward(taken, at) <==> if i == 0 then taken else i - 1 in at
  {
    ShiftedHas(at, i);
    if taken {
      assert ([0] + Shifted(at))[0] == 0;
      assert [0] + Shifted(at) == [0] + Shifted(at)[..];
    }
  }

  lemma {:induction false} PlacesMore(e: Entry, part: seq<Entry>, at: seq<nat>)
    requires PlacesOf(part, at)
    ensures PlacesOf([e] + part, Onward(IsRecord(e), at))
  {
    hide Onward;
    OnwardOrder(IsRecord(e), at);
    var all, on := [e] + part, Onward(IsRecord(e), at);
    forall i | 0 <= i < |all| ensures i in on <==> IsRecord(all[i]) {
      OnwardHas(IsRecord(e), at, i);
    }
    forall k | 0 <= k < |on| ensures on[k] < |all| {
      OnwardHas(IsRecord(e), at, on[k]);
      assert on[k] in on;
    }
  }

  /** One more entry in front. */
  lemma {:induction false} HoldsMore(records: seq<Entry>, e: Entry, part: seq<Entry>)
    requires Holds(records, part)
    ensures Holds(if IsRecord(e) then [e] + records else records, [e] + part)
  {
    hide PlacesOf, Picked, IsRecord, Onward;
    var at: seq<nat> :| PlacesOf(part, at) && Picked(records, part, at);
    PlacesMore(e, part, at);
    PickedMore(records, e, part, at);
  }

  lemma {:induction false} PickedMore(records: seq<Entry>, e: Entry, part: seq<Entry>, at: seq<nat>)
    requires Picked(records, part, at)
    ensures Picked(if IsRecord(e) then [e] + records else records, [e] + part, Onward(IsRecord(e), at))
  {
    hide IsRecord, Picked;
    PickedBehind(records, e, part, at, Shifted(at));
    if IsRecord(e) {
      PickedFirst(records, e, [e] + part, Shifted(at));
    }
  }

  lemma {:induction false} PickedBehind(records: seq<Entry>, e: Entry, part: seq<Entry>, at: seq<nat>, later: seq<nat>)
    requires Picked(records, part, at) && |later| == |at| && forall k :: 0 <= k < |at| ==> later[k] == at[k] + 1
    ensures Picked(records, [e] + part, later)
  {
  }

  lemma {:induction false} PickedFirst(records: seq<Entry>, e: Entry, all: seq<Entry>, later: seq<nat>)
    requires all != [] && all[0] == e && Picked(records, all, later)
    ensures Picked([e] + records, all, [0] + later)
  {
  }

  lemma NothingHeld()
    ensures Holds([], [])
  {
    var none: seq<nat> := [];
    assert PlacesOf([], none) && Picked([], [], none);
  }

  /** The records a frame is delivered and exported with are those. */
  lemma {:induction false} RecordsHold(part: seq<Entry>)
    ensures Holds(Records(part), part)
  {
    hide Holds;
    if part == [] {
      NothingHeld();
    } else {
      RecordsHold(part[1..]);
      HoldsMore(Records(part[1..]), part[0], part[1..]);
      assert [part[0]] + part[1..] == part;
      assert Records(part) == if IsRecord(part[0]) then [part[0]] + Records(part[1..]) else Records(part[1..]);
    }
  }

  predicate OfKind(e: Entry, kind: Kind) {
    match kind
    case HeadKind => e.Head?
    case RegKind => e.Reg?
    case MemKind => e.Mem?
    case VarKind => e.Var?
    case BeginKind => e.PageBegin?
    case EndKind => e.PageEnd?
  }

  /** What stops the walk whatever came before. */
  predicate Barred(s: Walker, e: Entry) {
    || (s.kind.Some? && OfKind(e, s.kind.value)) || (e.Head? && !s.passEntry)
    || (e.PageBegin? && s.id.Some? && s.id.value != e.id) || e.PageEnd?
  }

  /** Where the walk stops, and why.  It passes nothing that bars it and, if it counts steps, no more records
      than it may; of two reasons to stop it gives the first in the order here. */
  lemma {:induction false} WalkStops(s: Walker, flat: seq<Entry>, step: nat)
    returns (gone: seq<Entry>, records: seq<Entry>)
    requires s.step.Some? ==> step <= s.step.value
    ensures var (reason, rest) := FlatScan(s, flat, step);
            && flat == gone + rest && Holds(records, gone)
            && (forall i :: 0 <= i < |gone| ==> !Barred(s, gone[i]))
            && (s.step.Some? ==> step + |records| <= s.step.value)
            && if rest == [] then reason == AtEnd
               else
                 var e := rest[0];
                 if s.kind.Some? && OfKind(e, s.kind.value) then reason == AtType
                 else if s.step.Some? && IsRecord(e) && step + |records| == s.step.value then reason == AtStep
                 else Barred(s, e) && reason == if e.Head? then AtNewEntry else if e.PageBegin? then AtEntryEnd else AtError
    decreases |flat|
  {
    hide Holds;
    gone, records := [], [];
    NothingHeld();
    if flat != [] && StopAt(s, flat[0], step).None? {
      gone, records := WalkStops(s, flat[1..], StepAfter(s, flat[0], step));
      HoldsMore(records, flat[0], gone);
      gone, records := [flat[0]] + gone, if IsRecord(flat[0]) then [flat[0]] + records else records;
    }
  }

  // ----- the frames -----

  /** A head with the id and the tracepoint, and then what belongs to its frame, with these records. */
  ghost predicate IsFrame(all: seq<Entry>, id: nat, num: nat, records: seq<Entry>) {
    && all != [] && all[0].Head? && all[0].id == id && all[0].num == num
    && NoHead(all[1..]) && Holds(records, all[1..])
  }

  lemma FrameHolds(h: Entry, part: seq<Entry>)
    requires h.Head? && NoHead(part)
    ensures IsFrame([h] + part, h.id, h.num, Records(part))
  {
    hide Holds, Records;
    RecordsHold(part);
    assert ([h] + part)[1..] == part;
  }

  /** `at` are the places of all heads, in order. */
  predicate HeadsAt(flat: seq<Entry>, at: seq<nat>) {
    && (forall j, k :: 0 <= j < k < |at| ==> at[j] < at[k])
    && (forall k :: 0 <= k < |at| ==> at[k] < |flat|)
    && (forall i :: 0 <= i < |flat| ==> (i in at <==> flat[i].Head?))
  }

  /** Where the frame ends whose head is the k-th. */
  function EndAt(flat: seq<Entry>, at: seq<nat>, k: nat): nat {
    if k + 1 < |at| then at[k + 1] else |flat|
  }

  /** Frame k has the id and the tracepoint of head k, and the records between it and the next. */
  ghost predicate FrameIs(flat: seq<Entry>, at: seq<nat>, frames: seq<Frame>, k: nat)
    requires k < |at| == |frames| && HeadsAt(flat, at)
  {
    && flat[at[k]].Head? && frames[k].id == flat[at[k]].id && frames[k].num == flat[at[k]].num
    && Holds(frames[k].records, flat[at[k] + 1..EndAt(flat, at, k)])
  }

  /** One frame for each head, in order. */
  ghost predicate FramesAre(flat: seq<Entry>, frames: seq<Frame>) {
    exists at: seq<nat> ::
      HeadsAt(flat, at) && |at| == |frames| && forall k :: 0 <= k < |frames| ==> FrameIs(flat, at, frames, k)
  }

  /** There is one such list of frames. */
  lemma {:induction false} FramesOne(flat: seq<Entry>, a: seq<Frame>, b: seq<Frame>)
    requires FramesAre(flat, a) && FramesAre(flat, b)
    ensures a == b
  {
    hide Holds;
    var p: seq<nat> :| HeadsAt(flat, p) && |p| == |a| && forall k :: 0 <= k < |a| ==> FrameIs(flat, p, a, k);
    var q: seq<nat> :| HeadsAt(flat, q) && |q| == |b| && forall k :: 0 <= k < |b| ==> FrameIs(flat, q, b, k);
    forall x | x in p || x in q ensures x in p && x in q {
      assert 0 <= x < |flat|;
    }
    SameRange(p, q);
    forall k | 0 <= k < |a| ensures a[k] == b[k] {
      assert FrameIs(flat, p, a, k) && FrameIs(flat, q, b, k);
      HoldsOne(a[k].records, b[k].records, flat[p[k] + 1..EndAt(flat, p, k)]);
    }
  }

  lemma {:induction false} HeadsMore(e: Entry, flat: seq<Entry>, at: seq<nat>)
    requires HeadsAt(flat, at)
    ensures HeadsAt([e] + flat, Onward(e.Head?, at))
  {
    hide Onward;
    OnwardOrder(e.Head?, at);
    var all, on := [e] + flat, Onward(e.Head?, at);
    forall i | 0 <= i < |all| ensures i in on <==> all[i].Head? {
      OnwardHas(e.Head?, at, i);
    }
    forall k | 0 <= k < |on| ensures on[k] < |all| {
      OnwardHas(e.Head?, at, on[k]);
      assert on[k] in on;
    }
  }

  lemma SliceOnward(e: Entry, flat: seq<Entry>, i: nat, j: nat)
    requires i <= j <= |flat|
    ensures ([e] + flat)[i + 1..j + 1] == flat[i..j]
  {
  }

  /** The frames behind one more entry are the same frames. */
  lemma {:induction false} FrameShifts(e: Entry, flat: seq<Entry>, at: seq<nat>, frames: seq<Frame>, first: seq<Frame>, k: nat)
    requires k < |at| == |frames| && HeadsAt(flat, at) && FrameIs(flat, at, frames, k)
    requires |first| == if e.Head? then 1 else 0
    ensures HeadsAt([e] + flat, Onward(e.Head?, at))
    ensures FrameIs([e] + flat, Onward(e.Head?, at), first + frames, |first| + k)
  {
    hide Holds;
    HeadsMore(e, flat, at);
    var on, all := Onward(e.Head?, at), [e] + flat;
    var i, j := at[k], EndAt(flat, at, k);
    assert i < j <= |flat| && (first + frames)[|first| + k] == frames[k];
    assert on[|first| + k] == i + 1 && EndAt(all, on, |first| + k) == j + 1;
    SliceOnward(e, flat, i + 1, j);
    assert all[i + 1] == flat[i];
  }

  /** A head's frame goes to the next head. */
  lemma {:induction false} PartEnds(flat: seq<Entry>, at: seq<nat>)
    requires HeadsAt(flat, at)
    ensures var n := if at == [] then |flat| else at[0]; n <= |flat| && FramePart(flat) == flat[..n]
  {
    var n := if at == [] then |flat| else at[0];
    forall i | 0 <= i < n ensures !flat[i].Head? {
      assert forall k :: 0 <= k < |at| ==> at[k] >= n;
    }
    assert n < |flat| ==> at[0] in at && flat[n].Head?;
    FramePartUpTo(flat[..n], flat[n..]);
    assert flat[..n] + flat[n..] == flat;
  }

  /** The frames of the model are the frames so described. */
  lemma {:induction false} FramesMean(flat: seq<Entry>)
    ensures FramesAre(flat, Frames(flat))
    decreases |flat|
  {
    hide Holds, FrameIs, HeadsAt, Records, FramePart;
    if flat == [] {
      NoFrames();
    } else {
      var e, rest := flat[0], flat[1..];
      FramesMean(rest);
      var at: seq<nat> :|
        HeadsAt(rest, at) && |at| == |Frames(rest)| && forall k :: 0 <= k < |Frames(rest)| ==> FrameIs(rest, at, Frames(rest), k);
      var first: seq<Frame> := if e.Head? then [Frame(e.id, e.num, Records(FramePart(rest)))] else [];
      var at' := Onward(e.Head?, at);
      assert flat == [e] + rest && Frames(flat) == first + Frames(rest);
      HeadsMore(e, rest, at);
      forall k | 0 <= k < |Frames(flat)| ensures FrameIs(flat, at', Frames(flat), k) {
        if k < |first| {
          FirstIs(e, rest, at, Frames(rest));
        } else {
          FrameShifts(e, rest, at, Frames(rest), first, k - |first|);
        }
      }
    }
  }

  lemma NoFrames()
    ensures FramesAre([], [])
  {
    var none: seq<nat> := [];
    assert HeadsAt([], none);
  }

  lemma {:induction false} FirstIs(e: Entry, rest: seq<Entry>, at: seq<nat>, frames: seq<Frame>)
    requires e.Head? && HeadsAt(rest, at) && |at| == |frames|
    ensures HeadsAt([e] + rest, Onward(true, at))
    ensures FrameIs([e] + rest, Onward(true, at), [Frame(e.id, e.num, Records(FramePart(rest)))] + frames, 0)
  {
    hide Holds, Records, FramePart;
    HeadsMore(e, rest, at);
    PartEnds(rest, at);
    RecordsHold(FramePart(rest));
    var at' := Onward(true, at);
    var n := if at == [] then |rest| else at[0];
    assert EndAt([e] + rest, at', 0) == n + 1;
    assert ([e] + rest)[1..n + 1] == rest[..n];
  }

  /** The records are those, and the frames are those: each both ways. */
  lemma {:induction false} ExactlyRecords(part: seq<Entry>, records: seq<Entry>)
    ensures records == Records(part) <==> Holds(records, part)
  {
    hide Holds, Records;
    RecordsHold(part);
    if Holds(records, part) {
      HoldsOne(records, Records(part), part);
    }
  }

  lemma {:induction false} ExactlyFrames(flat: seq<Entry>, frames: seq<Frame>)
    ensures frames == Frames(flat) <==> FramesAre(flat, frames)
  {
    hide FramesAre, Frames;
    FramesMean(flat);
    if FramesAre(flat, frames) {
      FramesOne(flat, frames, Frames(flat));
    }
  }

  /** The ids the reader merges are those of the frames. */
  lemma {:induction false} HeadsAreIds(flat: seq<Entry>)
    ensures |Heads(flat)| == |Frames(flat)| && forall k :: 0 <= k < |Frames(flat)| ==> Heads(flat)[k] == Frames(flat)[k].id
    decreases |flat|
  {
    if flat != [] {
      HeadsAreIds(flat[1..]);
    }
  }
}
