/**
 The single-stream receive loop: one frame after another, each checked against what came before.
 Data frames carry decoded bytes. The outcome of preflight and of each file's handshake, which
 depend on the disk, come with the frame that triggers them.
 */
module ReceiveStream {
  import opened Prelude
  import opened FileSessions
  import opened ReceivePlans

  /** What the manifest says a header must repeat. */
  datatype Expected = Expected(kind: Kind, size: nat, link: string)

  datatype Frame =
    | Manifest(preflight: Result<map<string, Expected>>)
    | FileHeader(header: Header, opening: Result<Opening>)
    | Data(bytes: seq<byte>)
    | FileEnd(digest: string)
    | Done
    | Unknown
    | Closed

  /** ReceivePlan: the entries and the paths whose header has arrived. */
  datatype Progress = Progress(entries: map<string, Expected>, received: set<string>)

  /** The file in progress; the hasher has absorbed exactly the bytes of its part file. */
  datatype Current = Current(header: Header, action: ReceiveAction, total: nat, part: seq<byte>)

  datatype Status = Running | Acked | Failed(error: string)

  datatype Stream = Stream(plan: Option<Progress>, sawHeader: bool, current: Option<Current>,
                           finished: seq<Current>, status: Status)

  function Fresh(): Stream {
    Stream(None, false, None, [], Running)
  }

  function Fail(s: Stream, error: string): Stream {
    s.(status := Failed(error))
  }

  /** record_receive_plan_header */
  function RecordHeader(plan: Option<Progress>, path: string): Result<Option<Progress>> {
    if plan.None? then Ok(None)
    else if path !in plan.value.entries then Err("file header was not listed in manifest")
    else if path in plan.value.received then Err("duplicate file header for manifest entry")
    else Ok(Some(plan.value.(received := plan.value.received + {path})))
  }

  /** validate_receive_plan_complete */
  predicate PlanComplete(plan: Option<Progress>) {
    plan.None? || |plan.value.received| == |plan.value.entries|
  }

  /** validate_receive_plan_header */
  predicate HeaderMatches(expected: Expected, h: Header) {
    && expected.kind == HeaderKind(h) && expected.size == h.size
    && (HeaderKind(h) == SymlinkKind ==> expected.link == h.link)
  }

  function OnHeader(s: Stream, h: Header, opening: Result<Opening>): Stream {
    var t := s.(sawHeader := true);
    if s.current.Some? then Fail(s, "file header before previous file end")
    else if h.path == "" then Fail(t, "file header missing path")
    else
      var recorded := RecordHeader(s.plan, h.path);
      if recorded.Err? then Fail(t, recorded.error)
      else
        var u := t.(plan := recorded.value);
        if u.plan.Some? && h.path in u.plan.value.entries && !HeaderMatches(u.plan.value.entries[h.path], h) then
          Fail(u, "file header does not match manifest")
        else match opening
          case Err(error) => Fail(u, error)
          case Ok(o) =>
            u.(current := Some(Current(h, o.action, if o.action == ReceivePayload then o.resumeOffset else h.size, o.part)))
  }

  function OnData(s: Stream, bytes: seq<byte>): Stream {
    if s.current.None? then Fail(s, "data frame before file header")
    else
      var file := s.current.value;
      match file.action
      case Skipped => s
      case Marker => Fail(s, "data frame for non-file entry")
      case ReceivePayload =>
        if bytes != [] && (file.total > file.header.size || |bytes| > file.header.size - file.total) then
          Fail(s, "received more data than declared")
        else s.(current := Some(file.(total := file.total + |bytes|, part := file.part + bytes)))
  }

  /** verify_received_digest: the counted and the stored size, then the digest. */
  predicate Verified(file: Current, expected: string, hashes: Hashes) {
    file.total == file.header.size && |file.part| == file.header.size && hashes.digest.of(file.part) == expected
  }

  function OnFileEnd(s: Stream, digest: string, hashes: Hashes): Stream {
    if s.current.None? then Fail(s, "file end before file header")
    else
      var file := s.current.value;
      if file.action == ReceivePayload && !Verified(file, digest, hashes) then Fail(s, "integrity check failed")
      else s.(current := None, finished := s.finished + [file])
  }

  /** One turn of the loop; nothing is read after the acknowledgement or a failure. */
  function OnFrame(s: Stream, frame: Frame, hashes: Hashes): Stream {
    if s.status != Running then s
    else match frame
      case Manifest(preflight) =>
        if s.sawHeader then Fail(s, "transfer manifest arrived after file headers")
        else if s.plan.Some? then Fail(s, "duplicate transfer manifest")
        else if preflight.Err? then Fail(s, preflight.error)
        else s.(plan := Some(Progress(preflight.value, {})))
      case FileHeader(h, opening) => OnHeader(s, h, opening)
      case Data(bytes) => OnData(s, bytes)
      case FileEnd(digest) => OnFileEnd(s, digest, hashes)
      case Done =>
        if s.current.Some? then Fail(s, "transfer done before file end")
        else if !PlanComplete(s.plan) then Fail(s, "transfer ended before manifest entry")
        else s.(status := Acked)
      case Unknown => Fail(s, "unknown transfer frame tag")
      case Closed => Fail(s, "transfer stream ended unexpectedly")
  }

  function OnFrames(s: Stream, frames: seq<Frame>, hashes: Hashes): Stream
    decreases |frames|
  {
    if frames == [] then s else OnFrames(OnFrame(s, frames[0], hashes), frames[1..], hashes)
  }

  /** receive_files */
  method ReceiveFiles(frames: seq<Frame>, hashes: Hashes) returns (end: Stream, read: nat)
    ensures read <= |frames| && end == OnFrames(Fresh(), frames, hashes)
    ensures end.status != Running ==> end == OnFrames(Fresh(), frames[..read], hashes)
  {
    end, read := Fresh(), 0;
    while read < |frames| && end.status == Running
      invariant read <= |frames|
      invariant end == OnFrames(Fresh(), frames[..read], hashes)
    {
      OnFramesAppend(Fresh(), frames[..read], frames[read], hashes);
      assert frames[..read + 1] == frames[..read] + [frames[read]];
      end := OnFrame(end, frames[read], hashes);
      read := read + 1;
    }
    OnFramesSplit(Fresh(), frames[..read], frames[read..], hashes);
    assert frames == frames[..read] + frames[read..];
    if end.status != Running {
      StoppedStays(end, frames[read..], hashes);
    }
  }

  lemma {:induction false} OnFramesSplit(s: Stream, first: seq<Frame>, rest: seq<Frame>, hashes: Hashes)
    ensures OnFrames(s, first + rest, hashes) == OnFrames(OnFrames(s, first, hashes), rest, hashes)
    decreases |first|
  {
    if first == [] {
      assert first + rest == rest;
    } else {
      assert (first + rest)[1..] == first[1..] + rest;
      OnFramesSplit(OnFrame(s, first[0], hashes), first[1..], rest, hashes);
    }
  }

  lemma OnFramesAppend(s: Stream, first: seq<Frame>, frame: Frame, hashes: Hashes)
    ensures OnFrames(s, first + [frame], hashes) == OnFrame(OnFrames(s, first, hashes), frame, hashes)
  {
    OnFramesSplit(s, first, [frame], hashes);
    assert [frame][1..] == [];
  }

  lemma {:induction false} StoppedStays(s: Stream, frames: seq<Frame>, hashes: Hashes)
    requires s.status != Running
    ensures OnFrames(s, frames, hashes) == s
    decreases |frames|
  {
    if frames != [] {
      StoppedStays(s, frames[1..], hashes);
    }
  }

  // ---------------------------------------------------------------- what an acknowledgement means

  /** The paths of the headers among the first frames, in order. */
  function HeaderPaths(frames: seq<Frame>): seq<string> {
    if frames == [] then []
    else
      var last := frames[|frames| - 1];
      HeaderPaths(frames[..|frames| - 1]) + if last.FileHeader? then [last.header.path] else []
  }

  function Paths(files: seq<Current>): seq<string> {
    seq(|files|, i requires 0 <= i < |files| => files[i].header.path)
  }

  function PathsSoFar(s: Stream): seq<string> {
    Paths(s.finished) + if s.current.Some? then [s.current.value.header.path] else []
  }

  predicate NoDuplicates(paths: seq<string>) {
    forall i, j :: 0 <= i < j < |paths| ==> paths[i] != paths[j]
  }

  /** The paths recorded in the plan are those of the headers, each once and each listed. */
  ghost predicate PlanFits(s: Stream) {
    s.plan.Some? ==>
      && (forall path :: path in s.plan.value.received <==> path in PathsSoFar(s))
      && s.plan.value.received <= s.plan.value.entries.Keys
      && NoDuplicates(PathsSoFar(s))
  }

  predicate FileFits(s: Stream, file: Current) {
    s.plan.Some? ==> file.header.path in s.plan.value.entries
                     && HeaderMatches(s.plan.value.entries[file.header.path], file.header)
  }

  ghost predicate FilesFit(s: Stream, hashes: Hashes) {
    && (s.current.Some? ==> FileFits(s, s.current.value))
    && (forall i :: 0 <= i < |s.finished| ==>
          FileFits(s, s.finished[i])
          && (s.finished[i].action == ReceivePayload ==> |s.finished[i].part| == s.finished[i].header.size))
  }

  ghost predicate Inv(s: Stream, hashes: Hashes) {
    && (!s.status.Failed? ==> PlanFits(s) && FilesFit(s, hashes))
    && (!s.sawHeader && s.status == Running ==> s.current.None? && s.finished == [])
  }

  /** What one frame changes in the bookkeeping of a loop that goes on. */
  ghost predicate StepFits(s: Stream, frame: Frame, t: Stream) {
    !t.status.Failed? ==>
      && PathsSoFar(t) == PathsSoFar(s) + (if frame.FileHeader? then [frame.header.path] else [])
      && (frame.Manifest? || s.plan.Some? <==> t.plan.Some?)
      && (s.plan.Some? ==> t.plan.value.entries == s.plan.value.entries)
      && (frame.Manifest? ==> frame.preflight == Ok(t.plan.value.entries))
  }

  lemma HeaderStep(s: Stream, h: Header, opening: Result<Opening>, hashes: Hashes)
    requires Inv(s, hashes) && s.status == Running
    ensures Inv(OnHeader(s, h, opening), hashes)
    ensures StepFits(s, FileHeader(h, opening), OnHeader(s, h, opening))
  {
    var t := OnHeader(s, h, opening);
    if t.status == Running {
      assert PathsSoFar(s) == Paths(s.finished);
      assert PathsSoFar(t) == PathsSoFar(s) + [h.path];
      if t.plan.Some? {
        assert s.plan.Some? && h.path !in s.plan.value.received;
        assert h.path !in PathsSoFar(s);
      }
    }
  }

  lemma EndStep(s: Stream, digest: string, hashes: Hashes)
    requires Inv(s, hashes) && s.status == Running
    ensures Inv(OnFileEnd(s, digest, hashes), hashes)
    ensures StepFits(s, FileEnd(digest), OnFileEnd(s, digest, hashes))
  {
    var t := OnFileEnd(s, digest, hashes);
    if t.status == Running {
      assert Paths(t.finished) == Paths(s.finished) + [s.current.value.header.path];
    }
    assert PathsSoFar(s) + [] == PathsSoFar(s);
  }

  lemma DataStep(s: Stream, bytes: seq<byte>, hashes: Hashes)
    requires Inv(s, hashes) && s.status == Running
    ensures Inv(OnData(s, bytes), hashes) && StepFits(s, Frame.Data(bytes), OnData(s, bytes))
  {
    assert PathsSoFar(s) + [] == PathsSoFar(s);
  }

  lemma ManifestStep(s: Stream, frame: Frame, hashes: Hashes)
    requires Inv(s, hashes) && s.status == Running && frame.Manifest?
    ensures Inv(OnFrame(s, frame, hashes), hashes) && StepFits(s, frame, OnFrame(s, frame, hashes))
  {
    assert PathsSoFar(s) + [] == PathsSoFar(s);
    assert !s.sawHeader ==> PathsSoFar(s) == [];
  }

  lemma LastStep(s: Stream, frame: Frame, hashes: Hashes)
    requires Inv(s, hashes) && s.status == Running && (frame.Done? || frame.Unknown? || frame.Closed?)
    ensures Inv(OnFrame(s, frame, hashes), hashes) && StepFits(s, frame, OnFrame(s, frame, hashes))
  {
    assert PathsSoFar(s) + [] == PathsSoFar(s);
  }

  /** Which of the loop's cases a frame is. */
  lemma FrameCase(s: Stream, frame: Frame, hashes: Hashes)
    requires s.status == Running
    ensures frame.FileHeader? ==> OnFrame(s, frame, hashes) == OnHeader(s, frame.header, frame.opening)
    ensures frame.FileEnd? ==> OnFrame(s, frame, hashes) == OnFileEnd(s, frame.digest, hashes)
    ensures frame.Data? ==> OnFrame(s, frame, hashes) == OnData(s, frame.bytes)
  {
  }

  lemma FrameStep(s: Stream, frame: Frame, hashes: Hashes)
    requires Inv(s, hashes) && s.status == Running
    ensures Inv(OnFrame(s, frame, hashes), hashes) && StepFits(s, frame, OnFrame(s, frame, hashes))
  {
    FrameCase(s, frame, hashes);
    if frame.FileHeader? {
      HeaderStep(s, frame.header, frame.opening, hashes);
    } else if frame.FileEnd? {
      EndStep(s, frame.digest, hashes);
    } else if frame.Data? {
      DataStep(s, frame.bytes, hashes);
    } else if frame.Manifest? {
      ManifestStep(s, frame, hashes);
    } else {
      LastStep(s, frame, hashes);
    }
  }

  /** The manifest among the frames, if one passed preflight. */
  function ManifestIn(frames: seq<Frame>): Option<map<string, Expected>> {
    if frames == [] then None
    else
      var last := frames[|frames| - 1];
      if last.Manifest? && last.preflight.Ok? then Some(last.preflight.value) else ManifestIn(frames[..|frames| - 1])
  }

  /** Every frame of `frames` was read: only the last one can have stopped the loop. */
  ghost predicate AllRead(frames: seq<Frame>, hashes: Hashes) {
    frames != [] ==> OnFrames(Fresh(), frames[..|frames| - 1], hashes).status == Running
  }

  ghost predicate RunFits(s: Stream, frames: seq<Frame>, hashes: Hashes) {
    && Inv(s, hashes)
    && (!s.status.Failed? ==>
          && PathsSoFar(s) == HeaderPaths(frames)
          && (s.plan.Some? <==> ManifestIn(frames).Some?)
          && (s.plan.Some? ==> ManifestIn(frames) == Some(s.plan.value.entries)))
  }

  lemma RunningEverywhere(frames: seq<Frame>, hashes: Hashes)
    requires frames != [] && AllRead(frames, hashes)
    ensures AllRead(frames[..|frames| - 1], hashes)
  {
    var init := frames[..|frames| - 1];
    if init != [] {
      OnFramesAppend(Fresh(), init[..|init| - 1], init[|init| - 1], hashes);
      assert init == init[..|init| - 1] + [init[|init| - 1]];
    }
  }

  lemma {:induction false} RunKeepsFit(frames: seq<Frame>, hashes: Hashes)
    requires AllRead(frames, hashes)
    ensures RunFits(OnFrames(Fresh(), frames, hashes), frames, hashes)
    decreases |frames|
  {
    if frames != [] {
      var init, last := frames[..|frames| - 1], frames[|frames| - 1];
      RunningEverywhere(frames, hashes);
      RunKeepsFit(init, hashes);
      FrameStep(OnFrames(Fresh(), init, hashes), last, hashes);
      OnFramesAppend(Fresh(), init, last, hashes);
      assert frames == init + [last];
    }
  }

  // ---------------------------------------------------------------- never more than declared

  /** The handshake of every file left a part no longer than declared, of the length it resumes at. */
  predicate SoundOpenings(frames: seq<Frame>) {
    forall i :: 0 <= i < |frames| && frames[i].FileHeader? && frames[i].opening.Ok?
                && frames[i].opening.value.action == ReceivePayload ==>
      |frames[i].opening.value.part| == frames[i].opening.value.resumeOffset <= frames[i].header.size
  }

  predicate WithinDeclared(s: Stream) {
    s.current.Some? && s.current.value.action == ReceivePayload ==>
      |s.current.value.part| == s.current.value.total <= s.current.value.header.size
  }

  lemma WithinStep(s: Stream, frame: Frame, hashes: Hashes)
    requires WithinDeclared(s) && SoundOpenings([frame])
    ensures WithinDeclared(OnFrame(s, frame, hashes))
  {
    assert frame == [frame][0];
    if s.status == Running {
      FrameCase(s, frame, hashes);
    }
  }

  /** Whatever data arrives, a part file is never longer than its header declared, not even when the transfer fails. */
  lemma {:induction false} NeverBeyondDeclared(s: Stream, frames: seq<Frame>, hashes: Hashes)
    requires WithinDeclared(s) && SoundOpenings(frames)
    ensures WithinDeclared(OnFrames(s, frames, hashes))
    decreases |frames|
  {
    if frames != [] {
      assert forall i :: 0 <= i < |frames[1..]| ==> frames[1..][i] == frames[i + 1];
      WithinStep(s, frames[0], hashes);
      NeverBeyondDeclared(OnFrame(s, frames[0], hashes), frames[1..], hashes);
    }
  }

  // ---------------------------------------------------------------- the order of the frames

  /** How the file in progress after these frames was opened, if there is one. */
  function InProgress(frames: seq<Frame>): Option<Opening> {
    if frames == [] then None
    else
      var last := frames[|frames| - 1];
      if last.FileHeader? then (if last.opening.Ok? then Some(last.opening.value) else None)
      else if last.FileEnd? then None
      else InProgress(frames[..|frames| - 1])
  }

  function HasHeader(frames: seq<Frame>): bool {
    frames != [] && (frames[|frames| - 1].FileHeader? || HasHeader(frames[..|frames| - 1]))
  }

  /** The grammar of a transfer: what may come after the frames before. */
  predicate MayFollow(before: seq<Frame>, frame: Frame) {
    match frame
    case Manifest(preflight) => preflight.Ok? && !HasHeader(before) && ManifestIn(before).None?
    case FileHeader(header, opening) => InProgress(before).None? && header.path != "" && opening.Ok?
    case Data(_) => InProgress(before).Some? && InProgress(before).value.action != Marker
    case FileEnd(_) => InProgress(before).Some?
    case Done => InProgress(before).None?
    case Unknown => false
    case Closed => false
  }

  predicate Tracks(s: Stream, frames: seq<Frame>) {
    && (s.current.Some? <==> InProgress(frames).Some?)
    && (s.current.Some? ==> s.current.value.action == InProgress(frames).value.action)
    && (s.sawHeader <==> HasHeader(frames))
    && (s.plan.Some? <==> ManifestIn(frames).Some?)
  }

  /** What one more frame means for the record. */
  lemma OneMore(before: seq<Frame>, frame: Frame)
    ensures var all := before + [frame];
      && HasHeader(all) == (frame.FileHeader? || HasHeader(before))
      && ManifestIn(all) == (if frame.Manifest? && frame.preflight.Ok? then Some(frame.preflight.value) else ManifestIn(before))
      && InProgress(all) == (if frame.FileHeader? then (if frame.opening.Ok? then Some(frame.opening.value) else None)
                             else if frame.FileEnd? then None else InProgress(before))
  {
    assert (before + [frame])[..|before + [frame]| - 1] == before;
  }

  lemma TrackHeader(s: Stream, before: seq<Frame>, header: Header, opening: Result<Opening>)
    requires s.status == Running && Tracks(s, before) && !OnHeader(s, header, opening).status.Failed?
    ensures MayFollow(before, FileHeader(header, opening))
    ensures Tracks(OnHeader(s, header, opening), before + [FileHeader(header, opening)])
  {
    OneMore(before, FileHeader(header, opening));
  }

  lemma TrackFile(s: Stream, before: seq<Frame>, frame: Frame, hashes: Hashes)
    requires s.status == Running && Tracks(s, before) && (frame.Data? || frame.FileEnd?)
    requires !OnFrame(s, frame, hashes).status.Failed?
    ensures MayFollow(before, frame) && Tracks(OnFrame(s, frame, hashes), before + [frame])
  {
    OneMore(before, frame);
    FrameCase(s, frame, hashes);
  }

  lemma TrackOther(s: Stream, before: seq<Frame>, frame: Frame, hashes: Hashes)
    requires s.status == Running && Tracks(s, before)
    requires frame.Manifest? || frame.Done? || frame.Unknown? || frame.Closed?
    requires !OnFrame(s, frame, hashes).status.Failed?
    ensures MayFollow(before, frame)
    ensures frame.Done? || Tracks(OnFrame(s, frame, hashes), before + [frame])
  {
    OneMore(before, frame);
  }

  lemma TrackStep(s: Stream, before: seq<Frame>, frame: Frame, hashes: Hashes)
    requires s.status == Running && Tracks(s, before) && !OnFrame(s, frame, hashes).status.Failed?
    ensures MayFollow(before, frame)
    ensures frame.Done? || Tracks(OnFrame(s, frame, hashes), before + [frame])
  {
    if frame.FileHeader? {
      FrameCase(s, frame, hashes);
      TrackHeader(s, before, frame.header, frame.opening);
    } else if frame.Data? || frame.FileEnd? {
      TrackFile(s, before, frame, hashes);
    } else {
      TrackOther(s, before, frame, hashes);
    }
  }

  lemma {:induction false} RunTracks(frames: seq<Frame>, hashes: Hashes)
    requires OnFrames(Fresh(), frames, hashes).status == Running
    ensures Tracks(OnFrames(Fresh(), frames, hashes), frames)
    decreases |frames|
  {
    if frames != [] {
      var init, last := frames[..|frames| - 1], frames[|frames| - 1];
      assert frames == init + [last];
      OnFramesAppend(Fresh(), init, last, hashes);
      RunTracks(init, hashes);
      TrackStep(OnFrames(Fresh(), init, hashes), init, last, hashes);
    }
  }

  /**
   Every frame of a transfer that has not failed came where the grammar allows it: a manifest first if
   at all, then for each file a header, its data and its end, then the end mark.
   */
  lemma FramesInOrder(frames: seq<Frame>, i: nat, hashes: Hashes)
    requires i < |frames| && AllRead(frames, hashes) && !OnFrames(Fresh(), frames, hashes).status.Failed?
    ensures MayFollow(frames[..i], frames[i])
  {
    RunningBefore(frames, i, hashes);
    RunTracks(frames[..i], hashes);
    TrackStep(OnFrames(Fresh(), frames[..i], hashes), frames[..i], frames[i], hashes);
  }

  /** A loop that still runs after some frames was running before them. */
  lemma StoppedOnly(s: Stream, frames: seq<Frame>, hashes: Hashes)
    requires OnFrames(s, frames, hashes).status == Running
    ensures s.status == Running
  {
    if s.status != Running {
      StoppedStays(s, frames, hashes);
    }
  }

  lemma RunningPrefix(frames: seq<Frame>, i: nat, hashes: Hashes)
    requires i <= |frames| && OnFrames(Fresh(), frames, hashes).status == Running
    ensures OnFrames(Fresh(), frames[..i], hashes).status == Running
  {
    assert frames == frames[..i] + frames[i..];
    OnFramesSplit(Fresh(), frames[..i], frames[i..], hashes);
    StoppedOnly(OnFrames(Fresh(), frames[..i], hashes), frames[i..], hashes);
  }

  lemma RunningBefore(frames: seq<Frame>, i: nat, hashes: Hashes)
    requires i < |frames| && AllRead(frames, hashes) && !OnFrames(Fresh(), frames, hashes).status.Failed?
    ensures OnFrames(Fresh(), frames[..i], hashes).status == Running
    ensures !OnFrame(OnFrames(Fresh(), frames[..i], hashes), frames[i], hashes).status.Failed?
  {
    var init := frames[..|frames| - 1];
    OnFramesAppend(Fresh(), frames[..i], frames[i], hashes);
    assert frames[..i + 1] == frames[..i] + [frames[i]] && frames[..i] == init[..i];
    RunningPrefix(init, i, hashes);
    if i < |init| {
      assert frames[..i + 1] == init[..i + 1];
      RunningPrefix(init, i + 1, hashes);
    } else {
      assert frames[..i + 1] == frames;
    }
  }

  /** The trailers of the FileEnd frames, in order. */
  function Trailers(frames: seq<Frame>): seq<string> {
    if frames == [] then []
    else
      var last := frames[|frames| - 1];
      Trailers(frames[..|frames| - 1]) + if last.FileEnd? then [last.digest] else []
  }

  /** One trailer per finished file, and each payload file has the digest of its own. */
  ghost predicate TrailersFit(s: Stream, trailers: seq<string>, hashes: Hashes) {
    !s.status.Failed? ==>
      && |trailers| == |s.finished|
      && forall i :: 0 <= i < |s.finished| && s.finished[i].action == ReceivePayload ==>
           hashes.digest.of(s.finished[i].part) == trailers[i]
  }

  lemma TrailersEnd(s: Stream, digest: string, trailers: seq<string>, hashes: Hashes)
    requires TrailersFit(s, trailers, hashes) && s.status == Running
    ensures TrailersFit(OnFileEnd(s, digest, hashes), trailers + [digest], hashes)
  {
  }

  /** Every other frame leaves the finished files alone. */
  lemma OthersFinishNothing(s: Stream, frame: Frame, hashes: Hashes)
    requires s.status == Running && !frame.FileEnd?
    ensures OnFrame(s, frame, hashes).finished == s.finished
  {
    FrameCase(s, frame, hashes);
    if frame.FileHeader? {
      HeaderFinishesNothing(s, frame.header, frame.opening);
    }
  }

  lemma HeaderFinishesNothing(s: Stream, h: Header, opening: Result<Opening>)
    ensures OnHeader(s, h, opening).finished == s.finished
    ensures s.status == Running ==> OnHeader(s, h, opening).status != Acked
  {
  }

  lemma {:induction false} RunKeepsTrailers(frames: seq<Frame>, hashes: Hashes)
    requires AllRead(frames, hashes)
    ensures TrailersFit(OnFrames(Fresh(), frames, hashes), Trailers(frames), hashes)
    decreases |frames|
  {
    if frames != [] {
      var init, last := frames[..|frames| - 1], frames[|frames| - 1];
      RunningEverywhere(frames, hashes);
      RunKeepsTrailers(init, hashes);
      OnFramesAppend(Fresh(), init, last, hashes);
      assert frames == init + [last];
      var s := OnFrames(Fresh(), init, hashes);
      if last.FileEnd? {
        TrailersEnd(s, last.digest, Trailers(init), hashes);
      } else {
        OthersFinishNothing(s, last, hashes);
      }
    }
  }

  lemma AckStep(s: Stream, frame: Frame, hashes: Hashes)
    requires s.status == Running && OnFrame(s, frame, hashes).status == Acked
    ensures frame.Done? && s.current.None? && PlanComplete(s.plan) && OnFrame(s, frame, hashes) == s.(status := Acked)
  {
    FrameCase(s, frame, hashes);
    if frame.FileHeader? {
      HeaderFinishesNothing(s, frame.header, frame.opening);
    }
  }

  lemma AckedOnlyByDone(frames: seq<Frame>, hashes: Hashes)
    requires AllRead(frames, hashes) && OnFrames(Fresh(), frames, hashes).status == Acked
    ensures var end := OnFrames(Fresh(), frames, hashes); end.current.None? && PlanComplete(end.plan)
    ensures frames != [] && frames[|frames| - 1].Done?
  {
    var init, last := frames[..|frames| - 1], frames[|frames| - 1];
    OnFramesAppend(Fresh(), init, last, hashes);
    assert frames == init + [last];
    AckStep(OnFrames(Fresh(), init, hashes), last, hashes);
  }

  /**
   For every sequence of frames: if the receiver acknowledges after a manifest, then every entry of
   the manifest had exactly one header, in any order, repeating its kind and size; every one of
   these files was completed by one FileEnd, and each payload file holds exactly its declared number
   of bytes and has the digest that FileEnd announced.
   */
  lemma AckMeansComplete(frames: seq<Frame>, hashes: Hashes)
    requires AllRead(frames, hashes) && OnFrames(Fresh(), frames, hashes).status == Acked
    requires ManifestIn(frames).Some?
    ensures var end := OnFrames(Fresh(), frames, hashes);
      var entries := ManifestIn(frames).value;
      && end.current.None? && Paths(end.finished) == HeaderPaths(frames)
      && NoDuplicates(HeaderPaths(frames))
      && (forall path :: path in HeaderPaths(frames) <==> path in entries)
      && (forall i :: 0 <= i < |end.finished| ==>
            var file := end.finished[i];
            && file.header.path in entries && entries[file.header.path].kind == HeaderKind(file.header)
            && entries[file.header.path].size == file.header.size
            && (file.header.symlink ==> entries[file.header.path].link == file.header.link)
            && (file.action == ReceivePayload ==> |file.part| == file.header.size))
      && |Trailers(frames)| == |end.finished|
      && (forall i :: 0 <= i < |end.finished| && end.finished[i].action == ReceivePayload ==>
            hashes.digest.of(end.finished[i].part) == Trailers(frames)[i])
  {
    RunKeepsFit(frames, hashes);
    RunKeepsTrailers(frames, hashes);
    AckedOnlyByDone(frames, hashes);
    var end := OnFrames(Fresh(), frames, hashes);
    assert PathsSoFar(end) == Paths(end.finished);
    SameSize(end.plan.value.received, end.plan.value.entries);
    assert forall i :: 0 <= i < |end.finished| ==> FileFits(end, end.finished[i]);
  }

  /** A subset of the listed paths with as many members is all of them. */
  lemma SameSize(received: set<string>, entries: map<string, Expected>)
    requires received <= entries.Keys && |received| == |entries|
    ensures received == entries.Keys
  {
    var missing := entries.Keys - received;
    assert entries.Keys == received + missing;
    assert |entries.Keys| == |entries|;
  }
}
