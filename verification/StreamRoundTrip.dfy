/** What an honest single-stream sender sends, and that the receive loop takes all of it. */
module StreamRoundTrip {
  import opened Prelude
  import opened MuxResume
  import opened FileSessions
  import opened ReceivePlans
  import opened ReceiveStream

  /** sha256 of nothing, the trailer of entries without payload. */
  const EMPTY_DIGEST := "e3b0c44298fc1c149afbf4c8996fb92427ae41e4649b934ca495991b7852b855"

  /** One file of a transfer: what is sent, what the receiver already has, and how the payload is cut. */
  datatype Delivery = Delivery(source: Source, facts: Facts, pieces: seq<seq<byte>>)

  function Flatten(pieces: seq<seq<byte>>): seq<byte> {
    if pieces == [] then [] else pieces[0] + Flatten(pieces[1..])
  }

  function HonestAnswer(d: Delivery, hashes: Hashes): Result<Answer> {
    AnswerFor(d.source, RequestFor(HeaderFor(d.source), d.facts, hashes), hashes)
  }

  function HonestOpening(d: Delivery, hashes: Hashes): Result<Opening> {
    var answer := HonestAnswer(d, hashes);
    OpenFor(HeaderFor(d.source), d.facts, hashes, if answer.Ok? then [answer.value.acknowledged] else [])
  }

  /** The manifest describes the file, and the pieces are its bytes from the agreed offset on. */
  predicate Honest(d: Delivery, hashes: Hashes) {
    && d.source.relative != ""
    && Describes(d.source, hashes)
    && var answer := HonestAnswer(d, hashes);
       answer.Ok? && answer.value.action == SendPayload && answer.value.start <= |d.source.content| ==>
         Flatten(d.pieces) == d.source.content[answer.value.start..]
  }

  function DataFrames(pieces: seq<seq<byte>>): seq<Frame> {
    if pieces == [] then [] else [Frame.Data(pieces[0])] + DataFrames(pieces[1..])
  }

  /** send_transfer_files, for one entry. */
  function FileFrames(d: Delivery, hashes: Hashes): seq<Frame> {
    var payload := HonestAnswer(d, hashes).Ok? && HonestAnswer(d, hashes).value.action == SendPayload;
    [FileHeader(HeaderFor(d.source), HonestOpening(d, hashes))]
    + (if payload then DataFrames(d.pieces) else [])
    + [FileEnd(if payload then hashes.digest.of(d.source.content) else EMPTY_DIGEST)]
  }

  function AllFrames(ds: seq<Delivery>, hashes: Hashes): seq<Frame> {
    if ds == [] then [] else FileFrames(ds[0], hashes) + AllFrames(ds[1..], hashes)
  }

  /** send_files: the manifest, with what the receiver's preflight makes of it, every file, and the end mark. */
  function SendFiles(ds: seq<Delivery>, preflight: Result<map<string, Expected>>, hashes: Hashes): seq<Frame> {
    [Manifest(preflight)] + AllFrames(ds, hashes) + [Done]
  }

  function ExpectedFor(e: Source): Expected {
    Expected(KindOf(e), HeaderFor(e).size, e.link)
  }

  function ManifestFor(ds: seq<Delivery>): map<string, Expected> {
    if ds == [] then map[] else ManifestFor(ds[1..])[ds[0].source.relative := ExpectedFor(ds[0].source)]
  }

  predicate DistinctFiles(ds: seq<Delivery>) {
    forall i, j :: 0 <= i < j < |ds| ==> ds[i].source.relative != ds[j].source.relative
  }

  function Names(ds: seq<Delivery>): set<string> {
    if ds == [] then {} else {ds[0].source.relative} + Names(ds[1..])
  }

  lemma {:induction false} ManifestLists(ds: seq<Delivery>)
    requires DistinctFiles(ds)
    ensures forall i :: 0 <= i < |ds| ==>
      ds[i].source.relative in ManifestFor(ds) && ManifestFor(ds)[ds[i].source.relative] == ExpectedFor(ds[i].source)
    ensures ManifestFor(ds).Keys == Names(ds)
  {
    if ds != [] {
      ManifestLists(ds[1..]);
    }
  }

  /** The file an honest delivery leaves with the receiver. */
  function Delivered(d: Delivery, hashes: Hashes): Current {
    var opening := HonestOpening(d, hashes);
    var action := if opening.Ok? then opening.value.action else Marker;
    Current(HeaderFor(d.source), action, HeaderFor(d.source).size,
            if action == ReceivePayload then d.source.content else [])
  }

  function WithBytes(s: Stream, file: Current, bytes: seq<byte>): Stream {
    s.(current := Some(file.(total := file.total + |bytes|, part := file.part + bytes)))
  }

  lemma PieceAppends(s: Stream, file: Current, bytes: seq<byte>, hashes: Hashes)
    requires s.status == Running && s.current == Some(file) && file.action == ReceivePayload
    requires file.total + |bytes| <= file.header.size
    ensures OnFrame(s, Frame.Data(bytes), hashes) == WithBytes(s, file, bytes)
  {
  }

  lemma WithBytesTwice(s: Stream, file: Current, first: seq<byte>, rest: seq<byte>)
    ensures var next := file.(total := file.total + |first|, part := file.part + first);
      WithBytes(WithBytes(s, file, first), next, rest) == WithBytes(s, file, first + rest)
  {
    assert (file.part + first) + rest == file.part + (first + rest);
  }

  /** Data frames append their bytes, whatever the cut, as long as the total stays within the declared size. */
  lemma {:induction false} PiecesAppend(s: Stream, file: Current, pieces: seq<seq<byte>>, hashes: Hashes)
    requires s.status == Running && s.current == Some(file) && file.action == ReceivePayload
    requires file.total + |Flatten(pieces)| <= file.header.size
    ensures OnFrames(s, DataFrames(pieces), hashes) == WithBytes(s, file, Flatten(pieces))
    decreases |pieces|
  {
    if pieces == [] {
      assert file.part + [] == file.part;
    } else {
      var next := file.(total := file.total + |pieces[0]|, part := file.part + pieces[0]);
      PieceAppends(s, file, pieces[0], hashes);
      assert DataFrames(pieces)[1..] == DataFrames(pieces[1..]);
      PiecesAppend(WithBytes(s, file, pieces[0]), next, pieces[1..], hashes);
      WithBytesTwice(s, file, pieces[0], Flatten(pieces[1..]));
    }
  }

  /** The receiver is between files and expects this one. */
  predicate Awaits(s: Stream, d: Delivery) {
    && s.status == Running && s.current.None? && s.plan.Some?
    && d.source.relative in s.plan.value.entries && d.source.relative !in s.plan.value.received
    && s.plan.value.entries[d.source.relative] == ExpectedFor(d.source)
  }

  function AfterFile(s: Stream, d: Delivery, hashes: Hashes): Stream
    requires s.plan.Some?
  {
    s.(plan := Some(s.plan.value.(received := s.plan.value.received + {d.source.relative})),
       sawHeader := true, current := None, finished := s.finished + [Delivered(d, hashes)])
  }

  function Opened(s: Stream, d: Delivery, opening: Opening): Stream
    requires s.plan.Some?
  {
    var h := HeaderFor(d.source);
    s.(plan := Some(s.plan.value.(received := s.plan.value.received + {d.source.relative})), sawHeader := true,
       current := Some(Current(h, opening.action,
                               if opening.action == ReceivePayload then opening.resumeOffset else h.size, opening.part)))
  }

  lemma HeaderOpens(s: Stream, d: Delivery, hashes: Hashes)
    requires Honest(d, hashes) && hashes.digest.NeverEmpty() && Awaits(s, d)
    ensures HonestAnswer(d, hashes).Ok? && HonestOpening(d, hashes).Ok?
    ensures OnFrame(s, FileHeader(HeaderFor(d.source), HonestOpening(d, hashes)), hashes)
            == Opened(s, d, HonestOpening(d, hashes).value)
  {
    KindsAgree(d.source);
    HandshakeInLockstep(d.source, d.facts, hashes);
  }

  /** A skipped entry or a marker: the header, then the end. */
  lemma EmptyFileTaken(s: Stream, d: Delivery, hashes: Hashes)
    requires Honest(d, hashes) && hashes.digest.NeverEmpty() && Awaits(s, d)
    requires HonestAnswer(d, hashes).Ok? && HonestAnswer(d, hashes).value.action != SendPayload
    ensures OnFrames(s, FileFrames(d, hashes), hashes) == AfterFile(s, d, hashes)
  {
    HeaderOpens(s, d, hashes);
    HandshakeInLockstep(d.source, d.facts, hashes);
    var first, last := FileHeader(HeaderFor(d.source), HonestOpening(d, hashes)), FileEnd(EMPTY_DIGEST);
    assert FileFrames(d, hashes) == [first] + [last];
    OnFramesAppend(s, [first], last, hashes);
    assert OnFrames(s, [first], hashes) == OnFrame(s, first, hashes) by {
      OnFramesAppend(s, [], first, hashes);
      assert [] + [first] == [first];
    }
  }

  lemma PayloadFileTaken(s: Stream, d: Delivery, hashes: Hashes)
    requires Honest(d, hashes) && hashes.digest.NeverEmpty() && hashes.digest.Injective() && Awaits(s, d)
    requires HonestAnswer(d, hashes).Ok? && HonestAnswer(d, hashes).value.action == SendPayload
    ensures OnFrames(s, FileFrames(d, hashes), hashes) == AfterFile(s, d, hashes)
  {
    HeaderOpens(s, d, hashes);
    HandshakeInLockstep(d.source, d.facts, hashes);
    var opening := HonestOpening(d, hashes).value;
    var first, last := FileHeader(HeaderFor(d.source), HonestOpening(d, hashes)), FileEnd(hashes.digest.of(d.source.content));
    var begun := Opened(s, d, opening);
    var file := begun.current.value;
    assert FileFrames(d, hashes) == ([first] + DataFrames(d.pieces)) + [last];
    OnFramesAppend(s, [first] + DataFrames(d.pieces), last, hashes);
    assert ([first] + DataFrames(d.pieces))[1..] == DataFrames(d.pieces);
    PiecesAppend(begun, file, d.pieces, hashes);
    assert file.part + Flatten(d.pieces) == d.source.content;
  }

  lemma FileTaken(s: Stream, d: Delivery, hashes: Hashes)
    requires Honest(d, hashes) && hashes.digest.NeverEmpty() && hashes.digest.Injective() && Awaits(s, d)
    ensures OnFrames(s, FileFrames(d, hashes), hashes) == AfterFile(s, d, hashes)
  {
    HeaderOpens(s, d, hashes);
    if HonestAnswer(d, hashes).value.action == SendPayload {
      PayloadFileTaken(s, d, hashes);
    } else {
      EmptyFileTaken(s, d, hashes);
    }
  }

  function DeliveredAll(ds: seq<Delivery>, hashes: Hashes): (files: seq<Current>)
    ensures |files| == |ds| && forall i :: 0 <= i < |ds| ==> files[i] == Delivered(ds[i], hashes)
  {
    if ds == [] then [] else [Delivered(ds[0], hashes)] + DeliveredAll(ds[1..], hashes)
  }

  function AfterAll(s: Stream, ds: seq<Delivery>, hashes: Hashes): Stream
    requires s.plan.Some?
  {
    s.(plan := Some(s.plan.value.(received := s.plan.value.received + Names(ds))),
       sawHeader := s.sawHeader || ds != [], current := None, finished := s.finished + DeliveredAll(ds, hashes))
  }

  lemma Associate<T>(a: seq<T>, b: seq<T>, c: seq<T>, x: set<string>, y: set<string>, z: set<string>)
    ensures (a + b) + c == a + (b + c) && (x + y) + z == x + (y + z)
  {
  }

  lemma AfterAllStep(s: Stream, ds: seq<Delivery>, hashes: Hashes)
    requires s.plan.Some? && ds != []
    ensures AfterAll(AfterFile(s, ds[0], hashes), ds[1..], hashes) == AfterAll(s, ds, hashes)
  {
    Associate(s.finished, [Delivered(ds[0], hashes)], DeliveredAll(ds[1..], hashes),
              s.plan.value.received, {ds[0].source.relative}, Names(ds[1..]));
  }

  lemma {:induction false} AllTaken(s: Stream, ds: seq<Delivery>, hashes: Hashes)
    requires hashes.digest.NeverEmpty() && hashes.digest.Injective() && DistinctFiles(ds)
    requires s.plan.Some? && s.current.None? && forall i :: 0 <= i < |ds| ==> Honest(ds[i], hashes) && Awaits(s, ds[i])
    ensures OnFrames(s, AllFrames(ds, hashes), hashes) == AfterAll(s, ds, hashes)
    decreases |ds|
  {
    if ds == [] {
      assert s.plan.value.received + {} == s.plan.value.received;
      assert s.finished + [] == s.finished;
    } else {
      FileTaken(s, ds[0], hashes);
      OnFramesSplit(s, FileFrames(ds[0], hashes), AllFrames(ds[1..], hashes), hashes);
      var next := AfterFile(s, ds[0], hashes);
      forall i | 0 <= i < |ds[1..]| ensures Awaits(next, ds[1..][i]) {
        assert Awaits(s, ds[i + 1]) && ds[i + 1].source.relative != ds[0].source.relative;
      }
      AllTaken(next, ds[1..], hashes);
      AfterAllStep(s, ds, hashes);
    }
  }

  lemma DeliveredAction(d: Delivery, hashes: Hashes)
    requires Honest(d, hashes) && hashes.digest.NeverEmpty()
    ensures var file := Delivered(d, hashes);
      && (file.action == ReceivePayload ==> file.part == d.source.content)
      && (file.action == Skipped <==>
            KindOf(d.source) == FileKind && (d.facts.skip || IsDuplicate(HeaderFor(d.source), d.facts, hashes)))
      && (file.action == Marker <==> KindOf(d.source) != FileKind)
  {
    HandshakeInLockstep(d.source, d.facts, hashes);
    KindsAgree(d.source);
  }

  // ---------------------------------------------------------------- the receiver's plan

  /** The manifest entries of a transfer, with what the receiver's filesystem says about each. */
  predicate Lists(entries: seq<Entry>, ds: seq<Delivery>) {
    && |entries| == |ds|
    && forall i :: 0 <= i < |ds| ==>
         && entries[i].path == ds[i].source.relative && entries[i].kind == KindOf(ds[i].source)
         && entries[i].size == HeaderFor(ds[i].source).size && entries[i].link == ds[i].source.link
  }

  /** What a plan expects of the headers. */
  function ExpectedOf(plan: map<string, PlanEntry>): map<string, Expected> {
    map path | path in plan :: Expected(plan[path].manifest.kind, plan[path].manifest.size, plan[path].manifest.link)
  }

  lemma PlannedAsAnnounced(plan: map<string, PlanEntry>, entries: seq<Entry>, policy: Policy, ds: seq<Delivery>, i: nat)
    requires i < |ds| && Lists(entries, ds) && PlanCovers(plan, entries, policy, |entries|)
    ensures ds[i].source.relative in plan
    ensures ExpectedOf(plan)[ds[i].source.relative] == ExpectedFor(ds[i].source)
  {
    assert entries[i].path == ds[i].source.relative;
  }

  lemma PlannedIsListed(plan: map<string, PlanEntry>, entries: seq<Entry>, policy: Policy, ds: seq<Delivery>, path: string)
    returns (i: nat)
    requires path in plan && Lists(entries, ds) && PlanCovers(plan, entries, policy, |entries|)
    ensures i < |ds| && ds[i].source.relative == path
  {
    var k :| 0 <= k < |entries| && entries[k].path == path;
    i := k;
  }

  /** A plan made by an accepting preflight expects exactly what an honest sender announces. */
  lemma PlanExpectsManifest(plan: map<string, PlanEntry>, entries: seq<Entry>, policy: Policy, ds: seq<Delivery>)
    requires DistinctFiles(ds) && Lists(entries, ds) && PlanCovers(plan, entries, policy, |entries|)
    ensures ExpectedOf(plan) == ManifestFor(ds)
  {
    ManifestLists(ds);
    forall path | path in plan ensures path in ManifestFor(ds) && ExpectedOf(plan)[path] == ManifestFor(ds)[path] {
      var i := PlannedIsListed(plan, entries, policy, ds, path);
      PlannedAsAnnounced(plan, entries, policy, ds, i);
    }
    forall path | path in ManifestFor(ds) ensures path in plan {
      var i := NameIndex(ds, path);
      PlannedAsAnnounced(plan, entries, policy, ds, i);
    }
  }

  lemma {:induction false} NameIndex(ds: seq<Delivery>, name: string) returns (i: nat)
    requires name in Names(ds)
    ensures i < |ds| && ds[i].source.relative == name
  {
    if name == ds[0].source.relative {
      i := 0;
    } else {
      i := NameIndex(ds[1..], name);
      i := i + 1;
    }
  }

  lemma RefusedPreflight(ds: seq<Delivery>, error: string, hashes: Hashes)
    ensures OnFrames(Fresh(), SendFiles(ds, Err(error), hashes), hashes).status == Failed(error)
  {
    var first := Frame.Manifest(Err(error));
    assert SendFiles(ds, Err(error), hashes)[0] == first;
    StoppedStays(OnFrame(Fresh(), first, hashes), SendFiles(ds, Err(error), hashes)[1..], hashes);
  }

  /** A preflight that accepts: the transfer ends acknowledged. */
  lemma AcceptedPreflight(ds: seq<Delivery>, hashes: Hashes)
    requires hashes.digest.NeverEmpty() && hashes.digest.Injective() && DistinctFiles(ds)
    requires forall i :: 0 <= i < |ds| ==> Honest(ds[i], hashes)
    ensures var end := OnFrames(Fresh(), SendFiles(ds, Ok(ManifestFor(ds)), hashes), hashes);
      end.status == Acked && end.finished == DeliveredAll(ds, hashes)
  {
    ManifestLists(ds);
    var first := Frame.Manifest(Ok(ManifestFor(ds)));
    var s := OnFrame(Fresh(), first, hashes);
    assert s == Fresh().(plan := Some(Progress(ManifestFor(ds), {})));
    OnFramesAppend(Fresh(), [first] + AllFrames(ds, hashes), Done, hashes);
    assert ([first] + AllFrames(ds, hashes))[1..] == AllFrames(ds, hashes);
    AllTaken(s, ds, hashes);
    AllDone(s, ds, hashes);
  }

  lemma DoneAcknowledges(t: Stream, hashes: Hashes)
    requires t.status == Running && t.current.None? && t.plan.Some?
    requires t.plan.value.received == t.plan.value.entries.Keys
    ensures OnFrame(t, Done, hashes) == t.(status := Acked)
  {
    assert |t.plan.value.entries.Keys| == |t.plan.value.entries|;
  }

  /** After every file of the manifest the end mark is acknowledged. */
  lemma AllDone(s: Stream, ds: seq<Delivery>, hashes: Hashes)
    requires s == Fresh().(plan := Some(Progress(ManifestFor(ds), {}))) && ManifestFor(ds).Keys == Names(ds)
    ensures OnFrame(AfterAll(s, ds, hashes), Done, hashes).status == Acked
    ensures OnFrame(AfterAll(s, ds, hashes), Done, hashes).finished == DeliveredAll(ds, hashes)
  {
    assert {} + Names(ds) == Names(ds);
    DoneAcknowledges(AfterAll(s, ds, hashes), hashes);
    assert [] + DeliveredAll(ds, hashes) == DeliveredAll(ds, hashes);
  }

  /**
   An honest transfer ends in the acknowledgement if and only if the receiver's preflight accepts
   the manifest, whatever else the receiver has on disk and however the payloads are cut. Then every
   file has arrived once, in order, and every file that is not skipped or a marker holds exactly the
   bytes of the source.
   */
  lemma StreamDeliversEverything(ds: seq<Delivery>, preflight: Result<map<string, Expected>>, hashes: Hashes)
    requires hashes.digest.NeverEmpty() && hashes.digest.Injective() && DistinctFiles(ds)
    requires forall i :: 0 <= i < |ds| ==> Honest(ds[i], hashes)
    requires preflight.Ok? ==> preflight.value == ManifestFor(ds)
    ensures var end := OnFrames(Fresh(), SendFiles(ds, preflight, hashes), hashes);
      && (end.status == Acked <==> preflight.Ok?)
      && (preflight.Ok? ==>
            && |end.finished| == |ds|
            && forall i :: 0 <= i < |ds| ==>
                 && end.finished[i].header == HeaderFor(ds[i].source)
                 && (end.finished[i].action == ReceivePayload ==> end.finished[i].part == ds[i].source.content)
                 && (end.finished[i].action == Marker <==> KindOf(ds[i].source) != FileKind)
                 && (end.finished[i].action == Skipped <==>
                       KindOf(ds[i].source) == FileKind
                       && (ds[i].facts.skip || IsDuplicate(HeaderFor(ds[i].source), ds[i].facts, hashes)))
                 && (end.finished[i].action == Skipped && !ds[i].facts.skip ==>
                       ds[i].facts.existing.Some?
                       && hashes.imo(ds[i].facts.existing.value) == hashes.imo(ds[i].source.content)))
  {
    if preflight.Err? {
      RefusedPreflight(ds, preflight.error, hashes);
    } else {
      AcceptedPreflight(ds, hashes);
      forall i | 0 <= i < |ds| {
        DeliveredAction(ds[i], hashes);
      }
    }
  }
}
