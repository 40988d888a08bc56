/**
 Resume across attempts: the offer/answer handshake between ReceiveFileSession and
 SendFileSession, the chunks a sender cuts from that offset, and what any sequence of failed
 attempts leaves in the part file.
 */
module MuxResume {
  import opened Prelude
  import opened WrittenRanges
  import opened MuxReceive

  /** The digest of a prefix, in hex: opaque, and never the empty string. */
  datatype Digest = Digest(of: seq<byte> -> string)
  {
    ghost predicate NeverEmpty() {
      forall bytes :: of(bytes) != ""
    }

    ghost predicate Injective() {
      forall a, b :: of(a) == of(b) ==> a == b
    }
  }

  /** What the receiver asks for; `prefixDigest` is "" when it has nothing. */
  datatype Offer = Offer(offset: nat, prefixDigest: string)

  /** resumable_part_size, for a regular part file or none. */
  function ResumablePartSize(part: Option<seq<byte>>, declared: nat): nat {
    if part.Some? && |part.value| <= declared then |part.value| else 0
  }

  /** The receiver's side; `readable` is false when the part file cannot be hashed. */
  function MakeOffer(part: Option<seq<byte>>, declared: nat, readable: bool, digest: Digest): Offer {
    var have := ResumablePartSize(part, declared);
    if have > 0 && readable then Offer(have, digest.of(part.value[..have])) else Offer(0, "")
  }

  /** The sender's side: recv_resume_request and the prefix comparison of SendFileSession. */
  function AnswerOffer(source: seq<byte>, offer: Offer, digest: Digest): (accepted: nat)
    ensures accepted <= |source|
  {
    var offset := if offer.offset > |source| then 0 else offer.offset;
    if offset > 0 && offer.prefixDigest != "" && offer.prefixDigest != digest.of(source[..offset]) then 0 else offset
  }

  /** recv_resume_ack */
  function CheckAck(accepted: nat, requested: nat, declared: nat): Result<nat> {
    if accepted > declared || accepted > requested then Err("invalid resume ack") else Ok(accepted)
  }

  function Negotiate(source: seq<byte>, part: Option<seq<byte>>, readable: bool, digest: Digest): (k: nat)
    ensures k <= |source|
  {
    AnswerOffer(source, MakeOffer(part, |source|, readable, digest), digest)
  }

  /**
   Exactly when a part file is resumed: it is readable, not longer than the source, and its digest
   is that of the source prefix of the same length. The receiver never rejects the honest answer.
   */
  lemma NegotiateExactly(source: seq<byte>, part: Option<seq<byte>>, readable: bool, digest: Digest)
    requires digest.NeverEmpty()
    ensures var k := Negotiate(source, part, readable, digest);
      && (k > 0 <==>
          && part.Some? && readable && 0 < |part.value| <= |source|
          && digest.of(part.value) == digest.of(source[..|part.value|]))
      && (k > 0 ==> k == |part.value|)
      && CheckAck(k, MakeOffer(part, |source|, readable, digest).offset, |source|) == Ok(k)
  {
    if part.Some? {
      assert part.value[..|part.value|] == part.value;
    }
  }

  /** With a collision-free digest, a nonzero offset means the part file is a true prefix. */
  lemma AcceptedMeansPrefix(source: seq<byte>, part: Option<seq<byte>>, readable: bool, digest: Digest)
    requires digest.NeverEmpty() && digest.Injective()
    ensures var k := Negotiate(source, part, readable, digest);
      k > 0 ==> part.Some? && part.value == source[..k]
  {
    NegotiateExactly(source, part, readable, digest);
  }

  /** hash_prefix_bytes: the hasher absorbs the prefix in buffer-sized pieces. */
  method HashPrefix(input: seq<byte>, length: nat, bufferSize: nat) returns (total: nat, absorbed: seq<byte>)
    ensures total <= Min(length, |input|) && absorbed == input[..total]
    ensures bufferSize > 0 ==> total == Min(length, |input|)
  {
    total, absorbed := 0, [];
    while total < length
      invariant total <= Min(length, |input|)
      invariant absorbed == input[..total]
    {
      var want := Min(bufferSize, length - total);
      var got := Min(want, |input| - total);
      if got == 0 {
        break;
      }
      absorbed := absorbed + input[total..total + got];
      total := total + got;
    }
  }

  // ---------------------------------------------------------------- chunks of the source

  /** How many reads of MUX_CHUNK bytes cover the source from `resume` on. */
  function ChunkCount(size: nat, resume: nat): nat
    decreases size - resume
  {
    if resume < size then 1 + ChunkCount(size, resume + MUX_CHUNK) else 0
  }

  function ChunkStart(resume: nat, i: nat): nat {
    if i == 0 then resume else ChunkStart(resume, i - 1) + MUX_CHUNK
  }

  lemma {:induction false} ChunkStartShift(resume: nat, i: nat)
    ensures ChunkStart(resume + MUX_CHUNK, i) == ChunkStart(resume, i + 1)
  {
    if i > 0 {
      ChunkStartShift(resume, i - 1);
    }
  }

  /** Chunk i exists exactly when it starts inside the source. */
  lemma {:induction false} ChunkBounds(size: nat, resume: nat, i: nat)
    ensures i < ChunkCount(size, resume) <==> ChunkStart(resume, i) < size
    ensures resume <= ChunkStart(resume, i)
    decreases i
  {
    if i > 0 {
      ChunkBounds(size, resume + MUX_CHUNK, i - 1);
      ChunkStartShift(resume, i - 1);
    }
  }

  function ChunkAt(source: seq<byte>, resume: nat, i: nat): (chunk: Chunk)
    requires i < ChunkCount(|source|, resume)
    ensures chunk.offset + |chunk.bytes| <= |source| && 0 < |chunk.bytes| <= MUX_CHUNK
    ensures resume <= chunk.offset
  {
    ChunkBounds(|source|, resume, i);
    var start := ChunkStart(resume, i);
    Chunk(start, source[start..Min(start + MUX_CHUNK, |source|)])
  }

  /** The read loop of the sender cuts exactly these chunks, back to back up to the end. */
  method CutChunks(source: seq<byte>, resume: nat) returns (chunks: seq<Chunk>)
    requires resume <= |source|
    ensures |chunks| == ChunkCount(|source|, resume)
    ensures forall i :: 0 <= i < |chunks| ==> chunks[i] == ChunkAt(source, resume, i)
  {
    chunks := [];
    var total := resume;
    while total < |source|
      invariant |chunks| <= ChunkCount(|source|, resume)
      invariant total == Min(ChunkStart(resume, |chunks|), |source|)
      invariant forall i :: 0 <= i < |chunks| ==> chunks[i] == ChunkAt(source, resume, i)
    {
      var got := Min(MUX_CHUNK, |source| - total);
      ChunkBounds(|source|, resume, |chunks|);
      chunks := chunks + [Chunk(total, source[total..total + got])];
      total := total + got;
    }
    ChunkBounds(|source|, resume, |chunks|);
  }

  lemma {:induction false} ChunkOwner(size: nat, resume: nat, x: nat) returns (i: nat)
    requires resume <= x < size
    ensures i < ChunkCount(size, resume)
    ensures ChunkStart(resume, i) <= x < ChunkStart(resume, i) + MUX_CHUNK
    decreases x - resume
  {
    if x < resume + MUX_CHUNK {
      i := 0;
    } else {
      var j := ChunkOwner(size, resume + MUX_CHUNK, x);
      ChunkStartShift(resume, j);
      i := j + 1;
    }
    ChunkBounds(size, resume, i);
  }

  // ---------------------------------------------------------------- faithful receivers

  /** Every byte below the resume offset and every covered byte is the source's. */
  ghost predicate Faithful(source: seq<byte>, session: Session, r: Receiver) {
    && session.declared == |source|
    && Backed(session, r)
    && |r.file| <= |source|
    && (forall x :: 0 <= x < session.resume ==> r.file[x] == source[x])
    && (forall x :: 0 <= x < |r.file| && Covered(r.log, x) ==> r.file[x] == source[x])
  }

  ghost predicate Genuine(source: seq<byte>, chunk: Chunk) {
    && chunk.offset + |chunk.bytes| <= |source|
    && chunk.bytes == source[chunk.offset..chunk.offset + |chunk.bytes|]
  }

  /** Frames whose payload, if the reader accepts it, is a piece of the source in its place. */
  ghost predicate GenuineFrame(source: seq<byte>, session: Session, frame: Option<Tagged>) {
    match frame
    case Some(Data(payload)) =>
      var accepted := AcceptData(session, payload);
      accepted.Ok? ==> Genuine(source, accepted.value)
    case _ => true
  }

  lemma AcceptedIsGenuine(source: seq<byte>, session: Session, payload: seq<byte>, chunk: Chunk)
    requires AcceptData(session, payload) == Ok(chunk) && Genuine(source, chunk)
    ensures GenuineFrame(source, session, Some(Tagged.Data(payload)))
  {
  }

  lemma ChunkIsGenuine(source: seq<byte>, resume: nat, i: nat)
    requires i < ChunkCount(|source|, resume)
    ensures Genuine(source, ChunkAt(source, resume, i))
  {
    var chunk := ChunkAt(source, resume, i);
    assert Min(ChunkStart(resume, i) + MUX_CHUNK, |source|) == chunk.offset + |chunk.bytes|;
  }

  /** The sender's own chunk passes every check of the reader, unchanged. */
  lemma ChunkAccepted(source: seq<byte>, session: Session, i: nat)
    requires session.codec.RoundTrips() && |source| <= U64_MAX
    requires session.resume <= |source| == session.declared && i < ChunkCount(|source|, session.resume)
    ensures var chunk := ChunkAt(source, session.resume, i);
      AcceptData(session, ChunkPayload(session.codec, chunk)) == Ok(chunk) && Genuine(source, chunk)
  {
    ChunkIsGenuine(source, session.resume, i);
    AcceptRoundTrip(session, ChunkAt(source, session.resume, i));
  }

  /** A short write of source bytes puts source bytes in place and nothing else. */
  lemma GenuineBytes(source: seq<byte>, session: Session, r: Receiver, chunk: Chunk, count: nat)
    requires Faithful(source, session, r) && Genuine(source, chunk) && count <= |chunk.bytes|
    requires session.resume <= chunk.offset
    ensures var file := WriteAt(r.file, chunk.offset, chunk.bytes[..count]);
      && |r.file| <= |file| <= |source|
      && (forall x :: 0 <= x < |r.file| && r.file[x] == source[x] ==> file[x] == source[x])
      && (forall x :: chunk.offset <= x < chunk.offset + count ==> file[x] == source[x])
  {
    var data := chunk.bytes[..count];
    var file := WriteAt(r.file, chunk.offset, data);
    forall x | chunk.offset <= x < chunk.offset + count ensures data[x - chunk.offset] == source[x] {
      assert data[x - chunk.offset] == chunk.bytes[x - chunk.offset];
    }
    if data != [] {
      assert |file| == Max(|r.file|, chunk.offset + count);
    }
  }

  /** The file may grow or be rewritten with source bytes while the log stays. */
  lemma FaithfulFile(source: seq<byte>, session: Session, r: Receiver, file: seq<byte>, failed: bool)
    requires Faithful(source, session, r) && |r.file| <= |file| <= |source|
    requires forall x :: 0 <= x < |r.file| && r.file[x] == source[x] ==> file[x] == source[x]
    ensures Faithful(source, session, r.(file := file, failed := failed))
  {
    BackedLonger(session, r, file, failed);
    forall x | 0 <= x < |file| && Covered(r.log, x) ensures file[x] == source[x] {
      var range :| range in r.log && range.Covers(x);
      assert x < |r.file|;
    }
  }

  /** A whole chunk: its range joins the log, and its bytes are the source's. */
  lemma FaithfulWrite(source: seq<byte>, session: Session, r: Receiver, chunk: Chunk)
    requires Faithful(source, session, r) && Genuine(source, chunk) && session.resume <= chunk.offset
    ensures Faithful(source, session, Write(r, chunk))
    ensures Prefix(session, r) <= Prefix(session, Write(r, chunk))
  {
    assert chunk.bytes[..|chunk.bytes|] == chunk.bytes;
    GenuineBytes(source, session, r, chunk, |chunk.bytes|);
    BackedWrite(session, r, chunk);
    var next, added := Write(r, chunk), Range(chunk.offset, |chunk.bytes|);
    FaithfulFile(source, session, r, next.file, r.failed);
    forall x ensures Covered(next.log, x) ==> Covered(r.log, x) || added.Covers(x)
             ensures Covered(r.log, x) ==> Covered(next.log, x)
    {
      CoveredAppend(r.log, added, x);
    }
    forall x | 0 <= x < |next.file| && Covered(next.log, x) ensures next.file[x] == source[x] {
      if added.Covers(x) {
        assert chunk.offset <= x < chunk.offset + |chunk.bytes|;
      }
    }
    var p := Prefix(session, next);
    assert p < Prefix(session, r) ==> Covered(r.log, p);
  }

  lemma FaithfulStep(source: seq<byte>, session: Session, r: Receiver, frame: Option<Tagged>, disk: Disk)
    requires Faithful(source, session, r) && GenuineFrame(source, session, frame)
    ensures Faithful(source, session, Receive(session, r, frame, disk))
    ensures Prefix(session, r) <= Prefix(session, Receive(session, r, frame, disk))
  {
    if frame.Some? && frame.value.Data? && AcceptData(session, frame.value.payload).Ok? {
      var chunk := AcceptData(session, frame.value.payload).value;
      if disk.WritesAll? {
        FaithfulWrite(source, session, r, chunk);
      } else {
        var count := Min(disk.count, |chunk.bytes|);
        GenuineBytes(source, session, r, chunk, count);
        FaithfulFile(source, session, r, WriteAt(r.file, chunk.offset, chunk.bytes[..count]), true);
      }
    } else {
      FaithfulFile(source, session, r, r.file, true);
      FaithfulFile(source, session, r, r.file, r.failed);
    }
  }

  /** What trimming leaves is a prefix of the source, at least as long as where the session began. */
  lemma TrimmedIsSourcePrefix(source: seq<byte>, session: Session, r: Receiver)
    requires Faithful(source, session, r)
    ensures session.resume <= Prefix(session, r) <= |source|
    ensures Resize(r.file, Prefix(session, r)) == source[..Prefix(session, r)]
  {
    PrefixIsBacked(session, r);
    var p := Prefix(session, r);
    forall x | 0 <= x < p ensures r.file[x] == source[x] {
      assert session.resume <= x ==> Covered(r.log, x);
    }
  }

  /** When the whole tail is covered the part file is the source. */
  lemma FullyCoveredIsSource(source: seq<byte>, session: Session, r: Receiver)
    requires Faithful(source, session, r)
    requires forall x :: session.resume <= x < |source| ==> Covered(r.log, x)
    ensures r.file == source && Prefix(session, r) == |source|
  {
    var p := Prefix(session, r);
    assert p < |source| ==> !Covered(r.log, p);
    TrimmedIsSourcePrefix(source, session, r);
    PrefixIsBacked(session, r);
    assert Resize(r.file, p) == r.file;
  }

  // ---------------------------------------------------------------- sequences of attempts

  /** What one reader sees next: a whole chunk, a chunk the disk only partly takes, or a broken channel. */
  datatype Event = Arrives(chunk: nat) | DiskFails(chunk: nat, count: nat) | Breaks

  /** A failed attempt: whether the old part could be hashed, and what arrived, in order. */
  datatype Attempt = Attempt(readable: bool, events: seq<Event>)

  function EventFrame(source: seq<byte>, session: Session, event: Event): Option<Tagged>
    requires session.resume <= |source|
  {
    if event.Breaks? || event.chunk >= ChunkCount(|source|, session.resume) then None
    else Some(Data(ChunkPayload(session.codec, ChunkAt(source, session.resume, event.chunk))))
  }

  function EventDisk(event: Event): Disk {
    if event.DiskFails? then WritesOnly(event.count) else WritesAll
  }

  function ReceiveEvents(source: seq<byte>, session: Session, r: Receiver, events: seq<Event>): Receiver
    requires session.resume <= |source|
    decreases |events|
  {
    if events == [] then r
    else
      var next := Receive(session, r, EventFrame(source, session, events[0]), EventDisk(events[0]));
      ReceiveEvents(source, session, next, events[1..])
  }

  function SessionFor(source: seq<byte>, codec: Codec, part: Option<seq<byte>>, readable: bool, digest: Digest)
    : (session: Session)
    ensures session.resume <= |source|
  {
    Session(|source|, Negotiate(source, part, readable, digest), codec)
  }

  /** The file the session opens: the old part cut to the accepted offset, or a fresh one. */
  function OpenPart(part: Option<seq<byte>>, resume: nat): seq<byte> {
    if resume == 0 || part.None? then [] else Resize(part.value, resume)
  }

  /** The part file after a failed attempt. */
  ghost function PartAfter(source: seq<byte>, codec: Codec, digest: Digest, part: Option<seq<byte>>, attempt: Attempt)
    : seq<byte>
  {
    var session := SessionFor(source, codec, part, attempt.readable, digest);
    var end := ReceiveEvents(source, session, Start(session, OpenPart(part, session.resume)), attempt.events);
    Resize(end.file, Prefix(session, end))
  }

  ghost function PartAfterAll(source: seq<byte>, codec: Codec, digest: Digest, part: Option<seq<byte>>,
                              attempts: seq<Attempt>): Option<seq<byte>>
  {
    if attempts == [] then part
    else
      var before := PartAfterAll(source, codec, digest, part, attempts[..|attempts| - 1]);
      Some(PartAfter(source, codec, digest, before, attempts[|attempts| - 1]))
  }

  ghost predicate IsPrefixPart(source: seq<byte>, part: Option<seq<byte>>) {
    part.Some? ==> part.value <= source
  }

  lemma EventIsGenuine(source: seq<byte>, session: Session, event: Event)
    requires session.codec.RoundTrips() && |source| <= U64_MAX
    requires session.resume <= |source| == session.declared
    ensures GenuineFrame(source, session, EventFrame(source, session, event))
  {
    if !event.Breaks? && event.chunk < ChunkCount(|source|, session.resume) {
      var chunk := ChunkAt(source, session.resume, event.chunk);
      ChunkAccepted(source, session, event.chunk);
      AcceptedIsGenuine(source, session, ChunkPayload(session.codec, chunk), chunk);
    }
  }

  lemma {:induction false} EventsKeepFaithful(source: seq<byte>, session: Session, r: Receiver, events: seq<Event>)
    requires session.codec.RoundTrips() && |source| <= U64_MAX && session.resume <= |source|
    requires Faithful(source, session, r)
    ensures Faithful(source, session, ReceiveEvents(source, session, r, events))
    ensures Prefix(session, r) <= Prefix(session, ReceiveEvents(source, session, r, events))
    decreases |events|
  {
    if events != [] {
      var frame, disk := EventFrame(source, session, events[0]), EventDisk(events[0]);
      EventIsGenuine(source, session, events[0]);
      FaithfulStep(source, session, r, frame, disk);
      EventsKeepFaithful(source, session, Receive(session, r, frame, disk), events[1..]);
    }
  }

  /** An event that makes its reader throw: a broken channel, a write the disk cut short, or no such chunk. */
  predicate IsFault(source: seq<byte>, session: Session, event: Event) {
    event.Breaks? || event.DiskFails? || event.chunk >= ChunkCount(|source|, session.resume)
  }

  ghost predicate SomeFault(source: seq<byte>, session: Session, events: seq<Event>) {
    exists i :: 0 <= i < |events| && IsFault(source, session, events[i])
  }

  lemma SomeFaultCons(source: seq<byte>, session: Session, events: seq<Event>)
    requires events != []
    ensures SomeFault(source, session, events) <==>
      IsFault(source, session, events[0]) || SomeFault(source, session, events[1..])
  {
    if i :| 0 <= i < |events[1..]| && IsFault(source, session, events[1..][i]) {
      assert IsFault(source, session, events[i + 1]);
    }
    if i :| 0 <= i < |events| && IsFault(source, session, events[i]) && i > 0 {
      assert IsFault(source, session, events[1..][i - 1]);
    }
  }

  /** Over any events the session has failed exactly when there was a fault among them. */
  lemma {:induction false} FailedExactly(source: seq<byte>, session: Session, r: Receiver, events: seq<Event>)
    requires session.codec.RoundTrips() && |source| <= U64_MAX && session.resume <= |source| == session.declared
    ensures ReceiveEvents(source, session, r, events).failed <==> r.failed || SomeFault(source, session, events)
    decreases |events|
  {
    if events != [] {
      var frame, disk := EventFrame(source, session, events[0]), EventDisk(events[0]);
      SomeFaultCons(source, session, events);
      FaultFails(source, session, r, events[0]);
      FailedExactly(source, session, Receive(session, r, frame, disk), events[1..]);
    }
  }

  lemma FaultFails(source: seq<byte>, session: Session, r: Receiver, event: Event)
    requires session.codec.RoundTrips() && |source| <= U64_MAX && session.resume <= |source| == session.declared
    ensures Receive(session, r, EventFrame(source, session, event), EventDisk(event)).failed <==>
      r.failed || IsFault(source, session, event)
  {
    FailsExactly(session, r, EventFrame(source, session, event), EventDisk(event));
    if !event.Breaks? && event.chunk < ChunkCount(|source|, session.resume) {
      ChunkAccepted(source, session, event.chunk);
    }
  }

  /**
   One failed attempt, whatever the old part file held: the new part file is a prefix of the
   source and reaches at least the accepted offset. The accepted offset itself is the old length
   or zero. Only a part file that is not already a prefix needs the digest to be collision-free.
   */
  lemma AttemptLeavesPrefix(source: seq<byte>, codec: Codec, digest: Digest, part: Option<seq<byte>>, attempt: Attempt)
    requires codec.RoundTrips() && digest.NeverEmpty() && |source| <= U64_MAX
    requires IsPrefixPart(source, part) || digest.Injective()
    ensures var k := Negotiate(source, part, attempt.readable, digest);
      var after := PartAfter(source, codec, digest, part, attempt);
      k <= |after| && after <= source
  {
    NegotiateExactly(source, part, attempt.readable, digest);
    var session := SessionFor(source, codec, part, attempt.readable, digest);
    var first := Start(session, OpenPart(part, session.resume));
    assert Faithful(source, session, first);
    EventsKeepFaithful(source, session, first, attempt.events);
    TrimmedIsSourcePrefix(source, session, ReceiveEvents(source, session, first, attempt.events));
  }

  /** A part file that is a prefix of the source is resumed from its end, or from zero if unreadable. */
  lemma PrefixPartResumes(source: seq<byte>, part: Option<seq<byte>>, readable: bool, digest: Digest)
    requires digest.NeverEmpty() && IsPrefixPart(source, part)
    ensures Negotiate(source, part, readable, digest) == if part.Some? && readable then |part.value| else 0
  {
    NegotiateExactly(source, part, readable, digest);
    if part.Some? {
      assert source[..|part.value|] == part.value;
    }
  }

  /**
   Any number of failed attempts, from no part file, a prefix of the source, or (with a
   collision-free digest) anything at all: what each attempt leaves is a prefix of the source that
   reaches its own offset, and while it can be read the next attempt resumes at its whole length,
   so offsets never go down.
   */
  lemma {:induction false} AttemptsNeverGoBack(source: seq<byte>, codec: Codec, digest: Digest,
                                               part: Option<seq<byte>>, attempts: seq<Attempt>)
    requires codec.RoundTrips() && digest.NeverEmpty() && |source| <= U64_MAX
    requires IsPrefixPart(source, part) || digest.Injective()
    ensures attempts != [] ==>
      var before := PartAfterAll(source, codec, digest, part, attempts[..|attempts| - 1]);
      var readable := attempts[|attempts| - 1].readable;
      var after := PartAfterAll(source, codec, digest, part, attempts);
      && after.Some? && after.value <= source
      && Negotiate(source, before, readable, digest) <= |after.value|
      && Negotiate(source, after, true, digest) == |after.value|
      && (IsPrefixPart(source, before) && before.Some? && readable ==> |before.value| <= |after.value|)
    decreases |attempts|
  {
    if attempts != [] {
      var earlier := attempts[..|attempts| - 1];
      var last := attempts[|attempts| - 1];
      AttemptsNeverGoBack(source, codec, digest, part, earlier);
      var before := PartAfterAll(source, codec, digest, part, earlier);
      AttemptLeavesPrefix(source, codec, digest, before, last);
      if IsPrefixPart(source, before) {
        PrefixPartResumes(source, before, last.readable, digest);
      }
      PrefixPartResumes(source, PartAfterAll(source, codec, digest, part, attempts), true, digest);
    }
  }
}
