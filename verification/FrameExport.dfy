/**
 Exporting all frames: gtpframe_read goes through the frames of all CPUs in the order of the merge, and
 gtp_frame2file walks the records of each in the page ring and writes them in the trace file format.
 */
module FrameExport {
  import opened Options
  import opened PageRing
  import opened PageRuns
  import opened PageWalk
  import opened FrameRead
  import opened FrameCollect
  import opened Delivery
  import opened FramePipe
  import opened FrameFile
  import opened FrameMeaning
  import opened FrameShown

  // ----- the records of one frame -----

  /** The walker of gtp_frame2file, inside frame `id`. */
  function ToRecord(w: Addr, id: nat, step: nat): Walker {
    Walker(Some(w), true, false, Some(id), None, Some(step))
  }

  /** Once it has counted all it may, it stops at the next record of the frame, or where the frame
      ends. */
  lemma {:induction false} NextRecord(w: Addr, id: nat, step: nat, flat: seq<Entry>) returns (gone: seq<Entry>)
    requires Ordered(Some(id), flat)
    ensures var (reason, rest) := FlatScan(ToRecord(w, id, step), flat, step);
            && flat == gone + rest && Quiet(gone) && Ordered(Some(id), rest)
            && (if reason == AtStep then rest != [] && Counted(rest[0])
                else if reason == AtNewEntry then rest != [] && rest[0].Head?
                else reason == AtEnd && rest == [])
    decreases |flat|
  {
    gone := [];
    if flat != [] && !flat[0].Head? && !Counted(flat[0]) {
      gone := NextRecord(w, id, step, flat[1..]);
      gone := [flat[0]] + gone;
    }
  }

  /** The same for a walk over pages, from a place that may stand at a record to be passed first. */
  lemma {:induction false} NextRecordAt(w: Addr, id: nat, passing: bool, rest: seq<seq<Entry>>)
    requires rest != [] && Ordered(Some(id), Flat(rest))
    requires passing ==> Flat(rest) != [] && Counted(Flat(rest)[0])
    ensures var step := if passing then 1 else 0;
            var (reason, rest') := Scan(ToRecord(w, id, step), true, rest, 0);
            var from := if passing then Flat(rest)[1..] else Flat(rest);
            && Ordered(Some(id), Flat(rest')) && EndsIn(from, Flat(rest'))
            && Records(FramePart(from)) == Records(FramePart(Flat(rest'))) && Heads(from) == Heads(Flat(rest'))
            && (if reason == AtStep then
                  rest'[0] != [] && Flat(rest') != [] && Flat(rest')[0] == rest'[0][0] && Counted(rest'[0][0])
                else Records(FramePart(Flat(rest'))) == [] && (Flat(rest') == [] || Flat(rest')[0].Head?))
  {
    var step := if passing then 1 else 0;
    var s := ToRecord(w, id, step);
    PagesVanish(s, rest, 0);
    StopsAtEntry(s, true, rest, 0);
    var from := if passing then Flat(rest)[1..] else Flat(rest);
    assert FlatScan(s, Flat(rest), 0) == FlatScan(s, from, step);
    var gone := NextRecord(w, id, step, from);
    var left := FlatScan(s, from, step).1;
    RecordsSkip(gone, left);
    FramesSkip(gone, left);
  }

  /** A record at the front. */
  lemma RecordFirst(flat: seq<Entry>)
    requires flat != [] && Counted(flat[0])
    ensures Records(FramePart(flat)) == [flat[0]] + Records(FramePart(flat[1..]))
    ensures Heads(flat) == Heads(flat[1..])
  {
    assert flat == [flat[0]] + flat[1..];
    RecordTaken(flat[0], flat[1..]);
  }

  lemma EndsInTail(whole: seq<Entry>, part: seq<Entry>, less: seq<Entry>)
    requires EndsIn(whole, part) && part != [] && EndsIn(part[1..], less)
    ensures EndsIn(whole, less)
  {
    assert EndsIn(part, part[1..]);
    EndsInEnd(part, part[1..], less);
    EndsInEnd(whole, part, less);
  }

  lemma EndsInSelf(whole: seq<Entry>)
    ensures EndsIn(whole, whole)
  {
  }

  lemma RecordsAssoc(done: seq<Entry>, e: Entry, rest: seq<Entry>)
    ensures done + ([e] + rest) == (done + [e]) + rest && done + [] == done && [] + rest == rest
  {
  }

  lemma BytesAssoc(prefix: seq<Octet>, body: seq<Octet>, more: seq<Octet>)
    ensures prefix + body + more == prefix + (body + more)
  {
  }

  /** gtp_frame2file: from the read position behind the frame's head, the records of the frame are
      written, over as many pages as they lie on; what is left starts at the next head, or at `w`. */
  method Frame2File(o: Output, rb: Rb, start: Addr, id: nat, num: nat, cpu: nat, format: RegFormat,
                    ghost rest: seq<seq<Entry>>, ghost pages: seq<Page>)
    returns (next: Addr, ghost rest': seq<seq<Entry>>, ghost pages': seq<Page>, ghost records: seq<Entry>)
    requires o.Valid() && format.Valid()
    requires Stands(rb.next, rb.mem, Some(rb.w), start, rest, pages) && Ordered(Some(id), Flat(rest))
    requires |EncodeBlocks(FileBlocks(cpu, Records(FramePart(Flat(rest))), format))| < Pow256(4)
    modifies o, o.buf
    ensures o.Valid() && (o.buf == old(o.buf) || fresh(o.buf))
    ensures o.Contents() == old(o.Contents())
                          + EncodeFrame(num % Pow256(2), FileBlocks(cpu, Records(FramePart(Flat(rest))), format))
    ensures Stands(rb.next, rb.mem, Some(rb.w), next, rest', pages') && EndsIn(Flat(rest), Flat(rest'))
    ensures Heads(Flat(rest')) == Heads(Flat(rest)) && (Flat(rest') == [] || Flat(rest')[0].Head?)
    ensures HeldBefore(records, Flat(rest), Flat(rest'))
    ensures WroteFrame(old(o.Contents()), o.Contents(), num, cpu, records, format)
  {
    hide Stands, Scan, Flat, Ordered, Records, FramePart, Heads, EncodeBlocks, EncodeFrame, FileBlocks, BlocksOf, Pow256;
    hide LittleEndian, EndsIn, FlatScan, HeldBefore, WroteFrame;
    ghost var flat, all, before := Flat(rest), Records(FramePart(Flat(rest))), o.Contents();
    var dataSize;
    ghost var gap;
    dataSize, gap := o.BeginFrame(num, cpu, format);
    ghost var prefix := before + LittleEndian(num % Pow256(2), 2) + gap;
    records := [];
    StandsSomewhere(rb.next, rb.mem, Some(rb.w), start, rest, pages);
    NextRecordAt(rb.w, id, false, rest);
    EndsInSelf(flat);
    var reason;
    reason, next, rest', pages' := Walk(rb.next, rb.mem, ToRecord(rb.w, id, 0), start, rest, pages);
    EndsInEnd(flat, flat, Flat(rest'));
    RecordsAssoc([], Head(0, 0, None), all);
    while reason == AtStep
      invariant o.Valid() && (o.buf == old(o.buf) || fresh(o.buf))
      invariant rest' != [] && Stands(rb.next, rb.mem, Some(rb.w), next, rest', pages') && Ordered(Some(id), Flat(rest'))
      invariant EndsIn(flat, Flat(rest')) && Heads(Flat(rest')) == Heads(flat)
      invariant all == records + Records(FramePart(Flat(rest')))
      invariant reason == AtStep ==>
        rest'[0] != [] && Flat(rest') != [] && Flat(rest')[0] == rest'[0][0] && Counted(rest'[0][0])
      invariant reason != AtStep ==> Records(FramePart(Flat(rest'))) == [] && (Flat(rest') == [] || Flat(rest')[0].Head?)
      invariant o.Contents() == prefix + EncodeBlocks(FileBlocks(cpu, records, format))
      invariant dataSize == |EncodeBlocks(FileBlocks(cpu, records, format))|
      decreases |all| - |records|, if reason == AtStep then 1 else 0
    {
      Tests(rb.next, rb.mem, Some(rb.w), next, rest', pages');
      var e := rb.mem[next];
      ghost var left := Flat(rest');
      RecordFirst(left);
      RecordsAssoc(records, e, Records(FramePart(left[1..])));
      BodyGrows(cpu, records, e, format);
      BytesAssoc(prefix, EncodeBlocks(FileBlocks(cpu, records, format)), EncodeBlocks(BlocksOf(e, format)));
      dataSize := o.WriteRecord(e, format, dataSize);
      records := records + [e];
      NextRecordAt(rb.w, id, true, rest');
      reason, next, rest', pages' := Walk(rb.next, rb.mem, ToRecord(rb.w, id, 1), next, rest', pages');
      EndsInTail(flat, left, Flat(rest'));
    }
    RecordsAssoc(records, Head(0, 0, None), []);
    o.EndFrame(dataSize, before, num % Pow256(2), gap, FileBlocks(cpu, records, format));
    FrameWritten(before, o.Contents(), num, cpu, flat, Flat(rest'), format);
  }

  /** The records are those of the entries up to what is left, none of which is a head. */
  ghost predicate HeldBefore(records: seq<Entry>, flat: seq<Entry>, left: seq<Entry>) {
    exists part: seq<Entry> :: flat == part + left && NoHead(part) && Holds(records, part)
  }

  /** What was there, and then the bytes of one frame that reads as this. */
  ghost predicate WroteFrame(before: seq<Octet>, after: seq<Octet>, num: nat, cpu: nat, records: seq<Entry>,
                             format: RegFormat) {
    before <= after && ReadsAs(after[|before|..], num, cpu, records, format)
  }

  lemma {:induction false} FrameWritten(before: seq<Octet>, after: seq<Octet>, num: nat, cpu: nat, flat: seq<Entry>,
                                        left: seq<Entry>, format: RegFormat)
    requires format.Valid() && EndsIn(flat, left) && Heads(left) == Heads(flat) && (left == [] || left[0].Head?)
    requires |EncodeBlocks(FileBlocks(cpu, Records(FramePart(flat)), format))| < Pow256(4)
    requires after == before + EncodeFrame(num % Pow256(2), FileBlocks(cpu, Records(FramePart(flat)), format))
    ensures HeldBefore(Records(FramePart(flat)), flat, left)
    ensures WroteFrame(before, after, num, cpu, Records(FramePart(flat)), format)
  {
    hide EncodeBlocks, FileBlocks, EncodeFrame, Pow256, Records, FramePart, Heads, ReadsAs, Holds;
    var records := Records(FramePart(flat));
    AllRecords(FramePart(flat));
    ExportReadsAs(num, cpu, records, format);
    assert after[|before|..] == EncodeFrame(num % Pow256(2), FileBlocks(cpu, records, format));
    var part := flat[..|flat| - |left|];
    assert flat == part + left;
    HeadsSuffix(part, left);
    NoHeads(part);
    FramePartUpTo(part, left);
    RecordsHold(part);
  }

  lemma {:induction false} NoHeads(part: seq<Entry>)
    ensures Heads(part) == [] ==> NoHead(part)
  {
    if part != [] {
      NoHeads(part[1..]);
      assert part == [part[0]] + part[1..];
    }
  }

  // ----- the whole file -----

  /** The frames of the file, each with the CPU it comes from. */
  function Encoded(frames: seq<(nat, Frame)>, format: RegFormat): seq<Octet> {
    if frames == [] then []
    else
      var (cpu, f) := frames[0];
      EncodeFrame(f.num % Pow256(2), FileBlocks(cpu, f.records, format)) + Encoded(frames[1..], format)
  }

  lemma {:induction false} EncodedSnoc(frames: seq<(nat, Frame)>, cpu: nat, f: Frame, format: RegFormat)
    ensures Encoded(frames + [(cpu, f)], format)
         == Encoded(frames, format) + EncodeFrame(f.num % Pow256(2), FileBlocks(cpu, f.records, format))
    decreases |frames|
  {
    hide EncodeFrame, FileBlocks, Pow256;
    var more := frames + [(cpu, f)];
    if frames == [] {
      assert more[1..] == [];
    } else {
      assert more[1..] == frames[1..] + [(cpu, f)];
      EncodedSnoc(frames[1..], cpu, f, format);
      var (c, g) := frames[0];
      BytesAssoc(EncodeFrame(g.num % Pow256(2), FileBlocks(c, g.records, format)), Encoded(frames[1..], format),
                 EncodeFrame(f.num % Pow256(2), FileBlocks(cpu, f.records, format)));
    }
  }

  lemma EncodedMore(before: seq<Octet>, frames: seq<(nat, Frame)>, cpu: nat, f: Frame, format: RegFormat)
    ensures before + Encoded(frames + [(cpu, f)], format)
         == before + Encoded(frames, format) + EncodeFrame(f.num % Pow256(2), FileBlocks(cpu, f.records, format))
  {
    hide Encoded, EncodeFrame, FileBlocks, Pow256;
    EncodedSnoc(frames, cpu, f, format);
    BytesAssoc(before, Encoded(frames, format), EncodeFrame(f.num % Pow256(2), FileBlocks(cpu, f.records, format)));
  }

  /** The blocks of each frame take less than 2^32 bytes. */
  ghost predicate FramesFit(views: seq<View>, format: RegFormat) {
    forall c, i :: 0 <= c < |views| && 0 <= i < |Frames(Content(views[c]))| ==>
      |EncodeBlocks(FileBlocks(c, Frames(Content(views[c]))[i].records, format))| < Pow256(4)
  }

  /** The frames of an end of the entries are the last ones of all. */
  lemma {:induction false} LastFrames(before: seq<Entry>, left: seq<Entry>)
    ensures |Frames(left)| <= |Frames(before + left)|
    ensures Frames(before + left)[|Frames(before + left)| - |Frames(left)|..] == Frames(left)
    decreases |before|
  {
    if before == [] {
      assert before + left == left;
    } else {
      assert (before + left)[1..] == before[1..] + left;
      LastFrames(before[1..], left);
    }
  }

  /** The frame whose head is just before what is left. */
  lemma {:induction false} FrameAt(whole: seq<Entry>, id: nat, num: nat, left: seq<Entry>)
    requires FollowsHead(whole, id, num, left)
    ensures var k := |Frames(whole)| - |Heads(left)| - 1;
            0 <= k && Frames(whole)[k] == Frame(id, num, Records(FramePart(left)))
  {
    var at := |whole| - |left| - 1;
    var part := [whole[at]] + left;
    assert part[1..] == left;
    assert Frames(part) == [Frame(id, num, Records(FramePart(left)))] + Frames(left);
    assert whole == whole[..at] + part;
    HeadsAreIds(left);
    LastFrames(whole[..at], part);
    hide Frames, Records, FramePart, Heads;
    var n := |Frames(whole)| - |Frames(part)|;
    assert Frames(whole)[n..][0] == Frames(whole)[n];
  }

  /** `n` of the frames are still to come. */
  predicate AllBut(frames: seq<Frame>, n: nat, done: seq<Frame>) {
    n <= |frames| && done == frames[..|frames| - n]
  }

  lemma AllButStep(frames: seq<Frame>, n: nat, done: seq<Frame>, f: Frame)
    requires AllBut(frames, n, done) && n > 0 && frames[|frames| - n] == f
    ensures AllBut(frames, n - 1, done + [f])
  {
  }

  lemma AllButStart(flat: seq<Entry>)
    ensures AllBut(Frames(flat), |Heads(flat)|, [])
  {
    HeadsAreIds(flat);
  }

  lemma NothingEncoded(before: seq<Octet>, format: RegFormat)
    ensures before == before + Encoded([], format)
  {
  }

  lemma AllDone(lists: seq<seq<nat>>)
    requires Merged(lists) == []
    ensures forall c :: 0 <= c < |lists| ==> lists[c] == []
  {
  }

  lemma FitsHere(views: seq<View>, c: nat, f: Frame, n: nat, format: RegFormat)
    requires FramesFit(views, format) && c < |views|
    requires 0 <= |Frames(Content(views[c]))| - n - 1 && Frames(Content(views[c]))[|Frames(Content(views[c]))| - n - 1] == f
    ensures |EncodeBlocks(FileBlocks(c, f.records, format))| < Pow256(4)
  {
  }

  /** Behind the head of the current frame, its records come next. */
  lemma {:induction false} PlaceHere(rb: Rb, v: View, rp: Option<Addr>, id: nat, num: nat, rest: seq<seq<Entry>>,
                                     pages: seq<Page>)
    requires Readable(rb, v) && rp.Some? && PlaceAt(rb, rp, 0, rest, pages) && FollowsHead(Content(v), id, num, Flat(rest))
    ensures Stands(rb.next, rb.mem, Some(rb.w), rp.value, rest, pages) && Ordered(Some(id), Flat(rest))
  {
    BehindHeadOrdered(rb, v, id, num, Flat(rest));
  }

  /** The frames whose heads are not among those still to read have been exported, and no others. */
  ghost predicate Exported(views: seq<View>, lists: seq<seq<nat>>, frames: seq<(nat, Frame)>) {
    && |lists| == |views|
    && (forall c :: 0 <= c < |views| ==> AllBut(Frames(Content(views[c])), |lists[c]|, From(frames, c)))
    && Merged(HeadLists(views)) == Ids(frames) + Merged(lists)
  }

  lemma NothingExported(views: seq<View>)
    ensures Exported(views, HeadLists(views), [])
  {
    hide Content, Frames, Heads, AllBut, HeadsOf, AllEntries, Merged;
    var lists := HeadLists(views);
    assert Ids([]) + Merged(lists) == Merged(lists);
    forall c | 0 <= c < |views|
      ensures AllBut(Frames(Content(views[c])), |lists[c]|, From([], c))
    {
      AllButStart(Content(views[c]));
    }
  }

  /** Frame f of CPU c is the one whose head has just left the lists. */
  predicate NextOf(frames: seq<Frame>, n: nat, f: Frame) {
    0 <= |frames| - n - 1 && frames[|frames| - n - 1] == f
  }

  lemma {:induction false} OneExported(views: seq<View>, lists: seq<seq<nat>>, frames: seq<(nat, Frame)>, c: nat, f: Frame)
    requires Exported(views, lists, frames) && c < |views| && lists[c] != []
    requires NextOf(Frames(Content(views[c])), |lists[c][1..]|, f)
    requires Merged(lists) == [f.id] + Merged(lists[c := lists[c][1..]])
    ensures Exported(views, lists[c := lists[c][1..]], frames + [(c, f)])
  {
    hide Content, Frames, From, Merged, HeadLists;
    var lists', more := lists[c := lists[c][1..]], frames + [(c, f)];
    forall d | 0 <= d < |views|
      ensures AllBut(Frames(Content(views[d])), |lists'[d]|, From(more, d))
    {
      FromMore(frames, (c, f), d);
      if d == c {
        AllButStep(Frames(Content(views[c])), |lists[c]|, From(frames, c), f);
      }
    }
    assert Ids(more) == Ids(frames) + [f.id];
  }

  lemma {:induction false} AllExported(views: seq<View>, lists: seq<seq<nat>>, frames: seq<(nat, Frame)>)
    requires Exported(views, lists, frames) && Merged(lists) == []
    ensures forall c :: 0 <= c < |views| ==> From(frames, c) == Frames(Content(views[c]))
    ensures forall c :: 0 <= c < |views| ==> FramesAre(Content(views[c]), From(frames, c))
    ensures Ids(frames) == Merged(HeadLists(views))
  {
    hide Content, Frames, From, Merged, HeadLists, FramesAre;
    AllDone(lists);
    forall c | 0 <= c < |views|
      ensures From(frames, c) == Frames(Content(views[c])) && FramesAre(Content(views[c]), From(frames, c))
    {
      assert AllBut(Frames(Content(views[c])), |lists[c]|, From(frames, c));
      FramesMean(Content(views[c]));
    }
  }

  /** One turn of the loop of gtpframe_read: the current frame goes to the file, and the reader behind
      it. */
  method ExportCurrent(reader: Reader, o: Output, format: RegFormat) returns (ghost f: Frame)
    requires reader.Valid() && reader.AtFrame() && o.Valid() && format.Valid() && FramesFit(reader.views, format)
    requires (o.buf as object) != reader.rp && (o.buf as object) != reader.rpId
    modifies reader`rest, reader`pages, reader.rp, o, o.buf
    ensures reader.Valid() && o.Valid() && (o.buf == old(o.buf) || fresh(o.buf))
    ensures reader.Lists() == old(reader.Lists()) && |reader.Lists()| == |reader.views|
    ensures reader.current.value < |reader.views| && f.id == reader.currentId
    ensures NextOf(Frames(Content(reader.views[reader.current.value])), |reader.Lists()[reader.current.value]|, f)
    ensures o.Contents() == old(o.Contents())
                          + EncodeFrame(f.num % Pow256(2), FileBlocks(reader.current.value, f.records, format))
    ensures Writable(reader.current.value, f, format)
  {
    hide Merged, Mergeable, Readable, PlaceOk, PlaceAt, Content, Frames, Records, FramePart, Heads, LittleEndian, Best;
    hide EncodeBlocks, EncodeFrame, FileBlocks, Pow256, EndsIn, FollowsHead, Stands, Flat, Ordered, FramesFit;
    hide HeldBefore, WroteFrame, Writable;
    var c := reader.current.value;
    ghost var rest, pages := reader.rest[c], reader.pages[c];
    f := Frame(reader.currentId, reader.currentTpe, Records(FramePart(Flat(rest))));
    FrameAt(Content(reader.views[c]), f.id, f.num, Flat(rest));
    FitsHere(reader.views, c, f, |Heads(Flat(rest))|, format);
    WritableHere(c, f, Flat(rest), format);
    PlaceHere(reader.rbs[c], reader.views[c], reader.rp[c], f.id, f.num, rest, pages);
    var next;
    ghost var rest', pages';
    ghost var records;
    next, rest', pages', records := Frame2File(o, reader.rbs[c], reader.rp[c].value, reader.currentId, reader.currentTpe, c, format,
                                      rest, pages);
    reader.StepTo(c, next, rest', pages');
  }

  /** Two zero bytes, and the buffer is cut to what it holds. */
  method EndFile(o: Output)
    requires o.Valid()
    modifies o, o.buf
    ensures o.Valid() && o.Contents() == old(o.Contents()) + [0, 0] && o.size == o.buf.Length
  {
    var at := o.Extend(2, true);
    o.Put(at, [0, 0]);
  }

  /** The loop of gtpframe_read with the end of the file: the frames of all CPUs, each once, in the
      order of their ids, those of a CPU with the records it wrote in the order it wrote them. */
  method ExportAll(reader: Reader, o: Output, format: RegFormat) returns (ghost frames: seq<(nat, Frame)>)
    requires reader.Valid() && o.Valid() && format.Valid() && FramesFit(reader.views, format)
    requires (o.buf as object) != reader.rp && (o.buf as object) != reader.rpId
    modifies reader, reader.rp, reader.rpId, o, o.buf
    ensures reader.Valid() && reader.InPass() && reader.frameNum == -1
    ensures o.Valid() && o.Contents() == old(o.Contents()) + Encoded(frames, format) + [0, 0] && o.size == o.buf.Length
    ensures Ids(frames) == Merged(reader.AllHeads()) && Increasing(Ids(frames))
    ensures forall c :: 0 <= c < |reader.views| ==> From(frames, c) == Frames(Content(reader.views[c]))
    ensures forall c :: 0 <= c < |reader.views| ==> FramesAre(Content(reader.views[c]), From(frames, c))
    ensures WroteFile(old(o.Contents()), o.Contents(), frames, format)
  {
    hide Merged, Mergeable, Increasing, Readable, PlaceOk, PlaceAt, Content, Frames, From, Encoded, Heads, HeadsOf;
    hide HeadLists, EncodeBlocks, EncodeFrame, FileBlocks, Pow256, EndsIn, FollowsHead, FramesFit, Best, Exported;
    hide NextOf, AllEntries, FramesAre, Writable, WroteFile;
    frames := [];
    ghost var before := o.Contents();
    reader.ReadReset();
    MergedInOrder(reader.AllHeads());
    NothingExported(reader.views);
    NothingEncoded(before, format);
    while true
      invariant reader.Valid() && o.Valid() && (o.buf == old(o.buf) || fresh(o.buf))
      invariant o.Contents() == before + Encoded(frames, format)
      invariant Exported(reader.views, reader.Lists(), frames) && AllWritable(frames, format)
      decreases |Merged(reader.Lists())|
    {
      ghost var lists := reader.Lists();
      MergedStep(lists);
      var ret := reader.Read();
      if ret != 0 {
        AllExported(reader.views, lists, frames);
        break;
      }
      ghost var c := reader.current.value;
      ghost var f := ExportCurrent(reader, o, format);
      EncodedMore(before, frames, c, f, format);
      OneExported(reader.views, lists, frames, c, f);
      frames := frames + [(c, f)];
    }
    EndFile(o);
    FileWritten(before, o.Contents(), frames, format);
  }

  /** The blocks of the frame take less than 2^32 bytes, and its records are records. */
  predicate Writable(cpu: nat, f: Frame, format: RegFormat) {
    && |EncodeBlocks(FileBlocks(cpu, f.records, format))| < Pow256(4)
    && forall i :: 0 <= i < |f.records| ==> IsRecord(f.records[i])
  }

  lemma WritableHere(c: nat, f: Frame, flat: seq<Entry>, format: RegFormat)
    requires f.records == Records(FramePart(flat)) && |EncodeBlocks(FileBlocks(c, f.records, format))| < Pow256(4)
    ensures Writable(c, f, format)
  {
    AllRecords(FramePart(flat));
  }

  predicate AllWritable(frames: seq<(nat, Frame)>, format: RegFormat) {
    forall i :: 0 <= i < |frames| ==> Writable(frames[i].0, frames[i].1, format)
  }

  /** What was there, and then a file in which a reader finds the frames, up to the first that ends it. */
  ghost predicate WroteFile(before: seq<Octet>, after: seq<Octet>, frames: seq<(nat, Frame)>, format: RegFormat) {
    before <= after && FileShows(after[|before|..], UpTo(frames), format)
  }

  lemma {:induction false} FileWritten(before: seq<Octet>, after: seq<Octet>, frames: seq<(nat, Frame)>, format: RegFormat)
    requires format.Valid() && AllWritable(frames, format) && after == before + Encoded(frames, format) + [0, 0]
    ensures WroteFile(before, after, frames, format)
  {
    hide Encoded, FileShows, Writable;
    FileShown(frames, format);
    assert after[|before|..] == Encoded(frames, format) + [0, 0];
  }

  /** gtp_rb_reset on the rings of all CPUs. */
  method ResetAll(rbs0: seq<Rb>, ghost views0: seq<View>) returns (rbs: seq<Rb>, ghost views: seq<View>)
    requires |views0| == |rbs0| && forall c :: 0 <= c < |rbs0| ==> Rep(rbs0[c], views0[c])
    ensures |rbs| == |views| == |rbs0|
    ensures forall c :: 0 <= c < |rbs| ==> Rep(rbs[c], views[c]) && Frames(Content(views[c])) == []
  {
    hide Rep, Content, Frames;
    rbs, views := [], [];
    for c := 0 to |rbs0|
      invariant |rbs| == |views| == c
      invariant forall d :: 0 <= d < c ==> Rep(rbs[d], views[d]) && Frames(Content(views[d])) == []
    {
      RepShape(rbs0[c], views0[c]);
      ResetEmpties(rbs0[c], views0[c]);
      NoFramesHeld(views0[c]);
      rbs, views := rbs + [PageRing.Reset(rbs0[c])], views + [Emptied(views0[c])];
    }
  }

  lemma NoFramesHeld(v: View)
    requires v.region != []
    ensures Frames(Content(Emptied(v))) == []
  {
    var rest := Entries(Emptied(v).region);
    assert rest == [[]] && rest[1..] == [];
    assert Flat(rest) == rest[0] + Flat(rest[1..]);
  }

  /** The first read of the file, to its end.  If a frame was current it is current again; if none was,
      all rings are reset, and the frames just exported are gone from them. */
  method ReadFile(reader: Reader, o: Output, format: RegFormat)
    returns (ghost frames: seq<(nat, Frame)>, rbs: seq<Rb>, ghost views: seq<View>)
    requires reader.Valid() && o.Valid() && format.Valid() && FramesFit(reader.views, format)
    requires (o.buf as object) != reader.rp && (o.buf as object) != reader.rpId
    modifies reader, reader.rp, reader.rpId, o, o.buf
    ensures o.Valid() && o.Contents() == old(o.Contents()) + Encoded(frames, format) + [0, 0]
    ensures Ids(frames) == Merged(reader.AllHeads()) && Increasing(Ids(frames))
    ensures forall c :: 0 <= c < |reader.views| ==> From(frames, c) == Frames(Content(reader.views[c]))
    ensures forall c :: 0 <= c < |reader.views| ==> FramesAre(Content(reader.views[c]), From(frames, c))
    ensures WroteFile(old(o.Contents()), o.Contents(), frames, format)
    ensures |rbs| == |views| == |reader.rbs|
    ensures old(reader.frameNum) == -1 ==>
      forall c :: 0 <= c < |rbs| ==> Rep(rbs[c], views[c]) && Frames(Content(views[c])) == []
    ensures old(reader.frameNum) != -1 ==> rbs == reader.rbs && views == reader.views
    ensures 0 <= old(reader.frameNum) < |Merged(reader.AllHeads())| ==>
      reader.Valid() && reader.AtFrame() && reader.frameNum == old(reader.frameNum)
      && reader.currentId == Merged(reader.AllHeads())[old(reader.frameNum)]
  {
    hide Merged, Increasing, Rep, Content, Frames, From, Encoded, Heads, HeadsOf, HeadLists, FramesFit, PlaceOk, PlaceAt;
    hide Mergeable, EndsIn, FollowsHead, Within, Ids, FramesAre, WroteFile;
    var oldNum := reader.frameNum;
    frames := ExportAll(reader, o, format);
    rbs, views := reader.rbs, reader.views;
    if oldNum == -1 {
      RepOfAll(rbs, views);
      rbs, views := ResetAll(rbs, views);
    } else if oldNum >= 0 {
      var ret := reader.FindNum(oldNum);
    }
  }

  lemma RepOfAll(rbs: seq<Rb>, views: seq<View>)
    requires |views| == |rbs| && forall c :: 0 <= c < |rbs| ==> Readable(rbs[c], views[c])
    ensures forall c :: 0 <= c < |rbs| ==> Rep(rbs[c], views[c])
  {
    hide Rep, Ordered, Heads, Content;
  }

  // ----- reading the file -----

  /** A reader of the frames of a trace file, up to the two zero bytes at its end. */
  function DecodeFile(s: seq<Octet>, regSize: nat): Option<seq<(nat, seq<Block>)>>
    decreases |s|
  {
    if |s| < 2 then None
    else if s[0] == 0 && s[1] == 0 then Some([])
    else
      match DecodeFrame(s, regSize)
      case None => None
      case Some((num, bs, rest)) =>
        if |rest| >= |s| then None
        else
          match DecodeFile(rest, regSize)
          case None => None
          case Some(more) => Some([(num, bs)] + more)
  }

  function InFile(frames: seq<(nat, Frame)>, format: RegFormat): seq<(nat, seq<Block>)> {
    if frames == [] then []
    else
      var (cpu, f) := frames[0];
      [(f.num % Pow256(2), FileBlocks(cpu, f.records, format))] + InFile(frames[1..], format)
  }

  /** A frame whose number is 0 in 16 bits begins with the two bytes that end a file. */
  predicate EndsFile(f: Frame) {
    f.num % Pow256(2) == 0
  }

  /** The frames before the first that ends the file. */
  function UpTo(frames: seq<(nat, Frame)>): (before: seq<(nat, Frame)>)
    ensures before <= frames
    ensures before == frames <==> forall i :: 0 <= i < |frames| ==> !EndsFile(frames[i].1)
  {
    if frames == [] || EndsFile(frames[0].1) then []
    else
      assert frames == [frames[0]] + frames[1..];
      [frames[0]] + UpTo(frames[1..])
  }

  /** The exported bytes decode to the frames, with their numbers in 16 bits, the CPU and the records, up
      to the first frame that ends the file. */
  lemma {:induction false} FileRoundTrip(frames: seq<(nat, Frame)>, format: RegFormat)
    requires format.Valid()
    requires forall i :: 0 <= i < |UpTo(frames)| ==>
      |EncodeBlocks(FileBlocks(frames[i].0, frames[i].1.records, format))| < Pow256(4)
    ensures DecodeFile(Encoded(frames, format) + [0, 0], format.size) == Some(InFile(UpTo(frames), format))
    decreases |frames|
  {
    var s := Encoded(frames, format) + [0, 0];
    if frames == [] {
      assert s == [0, 0];
    } else {
      var (cpu, f) := frames[0];
      var num, bs, tail := f.num % Pow256(2), FileBlocks(cpu, f.records, format), Encoded(frames[1..], format) + [0, 0];
      assert s == EncodeFrame(num, bs) + tail by {
        hide EncodeFrame, FileBlocks, Encoded;
        UnfoldEncoded(frames, format);
      }
      if EndsFile(f) {
        ZeroFirst(bs, tail);
      } else {
        assert forall i :: 0 <= i < |UpTo(frames[1..])| ==> frames[1..][i] == frames[i + 1];
        FileRoundTrip(frames[1..], format);
        ExportRoundTrip(f.num, cpu, f.records, format, tail);
        hide EncodeBlocks, FileBlocks, Encoded, DecodeFrame;
        NumberFirst(num, bs, tail);
      }
    }
  }

  /** A reader of the file finds these frames: each with its number in 16 bits, its CPU and its records. */
  ghost predicate FileShows(s: seq<Octet>, frames: seq<(nat, Frame)>, format: RegFormat) {
    var read := DecodeFile(s, format.size);
    && read.Some? && |read.value| == |frames|
    && forall i :: 0 <= i < |frames| ==>
         && read.value[i].0 == frames[i].1.num % 65536
         && Shows(read.value[i].1, frames[i].0, frames[i].1.records, format)
  }

  lemma {:induction false} InFileShows(frames: seq<(nat, Frame)>, format: RegFormat, i: nat)
    requires i < |frames| == |InFile(frames, format)| && Writable(frames[i].0, frames[i].1, format)
    ensures var (num, bs) := InFile(frames, format)[i];
            num == frames[i].1.num % 65536 && Shows(bs, frames[i].0, frames[i].1.records, format)
    decreases i
  {
    hide FileBlocks, Shows, EncodeBlocks, Pow256;
    AsManyInFile(frames, format);
    AsManyInFile(frames[1..], format);
    Powers();
    if i == 0 {
      BlocksShow(frames[0].0, frames[0].1.records, format);
    } else {
      assert frames[1..][i - 1] == frames[i];
      InFileShows(frames[1..], format, i - 1);
    }
  }

  /** The file is the frames up to the first that ends it. */
  lemma {:induction false} FileShown(frames: seq<(nat, Frame)>, format: RegFormat)
    requires format.Valid() && AllWritable(frames, format)
    ensures FileShows(Encoded(frames, format) + [0, 0], UpTo(frames), format)
  {
    hide EncodeBlocks, FileBlocks, Encoded, DecodeFile, Pow256, Shows, UpTo, InFile, EndsFile;
    FileRoundTrip(frames, format);
    var shown := UpTo(frames);
    AsManyInFile(shown, format);
    forall i | 0 <= i < |shown|
      ensures var (num, bs) := InFile(shown, format)[i];
              num == shown[i].1.num % 65536 && Shows(bs, shown[i].0, shown[i].1.records, format)
    {
      assert shown[i] == frames[i] && Writable(frames[i].0, frames[i].1, format);
      InFileShows(shown, format, i);
    }
  }

  /** The whole file reads back if and only if no frame has such a number. */
  lemma {:induction false} WholeFileReadsBack(frames: seq<(nat, Frame)>, format: RegFormat)
    requires format.Valid()
    requires forall i :: 0 <= i < |frames| ==>
      |EncodeBlocks(FileBlocks(frames[i].0, frames[i].1.records, format))| < Pow256(4)
    ensures DecodeFile(Encoded(frames, format) + [0, 0], format.size) == Some(InFile(frames, format))
       <==> forall i :: 0 <= i < |frames| ==> !EndsFile(frames[i].1)
    ensures AllWritable(frames, format) ==>
      (FileShows(Encoded(frames, format) + [0, 0], frames, format) <==> forall i :: 0 <= i < |frames| ==> !EndsFile(frames[i].1))
  {
    hide EncodeBlocks, FileBlocks, Encoded, DecodeFile, Pow256, EndsFile, Shows, Writable;
    FileRoundTrip(frames, format);
    AsManyInFile(frames, format);
    AsManyInFile(UpTo(frames), format);
    if AllWritable(frames, format) {
      FileShown(frames, format);
    }
  }

  lemma {:induction false} AsManyInFile(frames: seq<(nat, Frame)>, format: RegFormat)
    ensures |InFile(frames, format)| == |frames|
    decreases |frames|
  {
    hide FileBlocks, Pow256;
    if frames != [] {
      AsManyInFile(frames[1..], format);
    }
  }

  /** Tracepoint 65536 followed by tracepoint 1: a reader of the file finds no frame. */
  lemma FrameHidesTheRest(format: RegFormat)
    requires format.Valid()
    ensures var frames := [(0, Frame(1, 65536, [])), (0, Frame(2, 1, []))];
            DecodeFile(Encoded(frames, format) + [0, 0], format.size) == Some([])
  {
    var frames := [(0, Frame(1, 65536, [])), (0, Frame(2, 1, []))];
    assert Pow256(1) == 256 && Pow256(2) == 65536;
    assert UpTo(frames) == [];
    hide Encoded, EncodeBlocks, FileBlocks, DecodeFrame, DecodeFile;
    FileRoundTrip(frames, format);
  }

  /** The number 0 shows in the first two bytes. */
  lemma ZeroFirst(bs: seq<Block>, tail: seq<Octet>)
    ensures var s := EncodeFrame(0, bs) + tail; |s| >= 2 && s[0] == 0 && s[1] == 0
  {
    hide EncodeBlocks;
    assert LittleEndian(0, 2) == [0, 0] by {
      assert LittleEndian(0, 1) == [0] + LittleEndian(0, 0);
      assert LittleEndian(0, 2) == [0] + LittleEndian(0, 1);
    }
    var s := EncodeFrame(0, bs) + tail;
    assert s[0] == LittleEndian(0, 2)[0] && s[1] == LittleEndian(0, 2)[1];
  }

  lemma UnfoldEncoded(frames: seq<(nat, Frame)>, format: RegFormat)
    requires frames != []
    ensures var (cpu, f) := frames[0];
            Encoded(frames, format) + [0, 0]
            == EncodeFrame(f.num % Pow256(2), FileBlocks(cpu, f.records, format)) + (Encoded(frames[1..], format) + [0, 0])
  {
    hide EncodeFrame, FileBlocks, Pow256;
  }

  /** A number other than 0 shows in the first two bytes. */
  lemma NumberFirst(num: nat, bs: seq<Block>, tail: seq<Octet>)
    requires 0 < num < Pow256(2)
    ensures var s := EncodeFrame(num, bs) + tail;
            |s| >= 6 + |tail| && !(s[0] == 0 && s[1] == 0)
  {
    hide EncodeBlocks;
    ValueOfBytes(num, 2);
    var s := EncodeFrame(num, bs) + tail;
    var head := LittleEndian(num, 2);
    assert s[0] == head[0] && s[1] == head[1];
    assert head == [head[0]] + [head[1]];
    assert head[1..] == [head[1]] && head[1..][1..] == [];
    assert Value(head) == head[0] + 256 * Value(head[1..]);
  }
}
