/**
 The per-file handshake of SendFileSession and ReceiveFileSession: a header, a resume request and
 an acknowledgement decide whether the file is a marker, is skipped, or is sent from some offset.
 */
module FileSessions {
  import opened Prelude
  import opened MuxResume
  import opened ReceivePlans

  /** A file as the sender lists it; `content` is what the path holds when it is sent. */
  datatype Source = Source(relative: string, symlink: bool, link: string, size: nat, imohash: string,
                           content: seq<byte>)

  /** transfer_entry_kind */
  function KindOf(e: Source): Kind {
    if e.symlink then SymlinkKind
    else if e.size == 0 && e.relative != "" && e.relative[|e.relative| - 1] == '/' then DirKind
    else FileKind
  }

  datatype Header = Header(path: string, size: nat, symlink: bool, link: string, imohash: string)

  /** make_file_header */
  function HeaderFor(e: Source): Header {
    match KindOf(e)
    case SymlinkKind => Header(e.relative, 0, true, e.link, "")
    case DirKind => Header(e.relative, 0, false, "", "")
    case _ => Header(e.relative, e.size, false, "", e.imohash)
  }

  /** is_symlink_header, then is_dir_header */
  function HeaderKind(h: Header): Kind {
    if h.symlink then SymlinkKind
    else if h.size == 0 && h.path != "" && h.path[|h.path| - 1] == '/' then DirKind
    else FileKind
  }

  datatype Request = Request(offer: Offer, completeSkip: bool)

  /**
   What the receiver finds for a file: whether the conflict policy skips it, the regular file
   already at the target, the part file, and whether the part file can be read.
   */
  datatype Facts = Facts(skip: bool, existing: Option<seq<byte>>, part: Option<seq<byte>>, readable: bool)

  /** The quick whole-file hash and the prefix digest. */
  datatype Hashes = Hashes(imo: seq<byte> -> string, digest: Digest)

  predicate IsDuplicate(h: Header, facts: Facts, hashes: Hashes) {
    h.imohash != "" && facts.existing.Some? && hashes.imo(facts.existing.value) == h.imohash
  }

  /** The receiver's request: send_resume. */
  function RequestFor(h: Header, facts: Facts, hashes: Hashes): Request {
    if HeaderKind(h) != FileKind then Request(Offer(0, ""), false)
    else if facts.skip || IsDuplicate(h, facts, hashes) then Request(Offer(h.size, ""), true)
    else Request(MakeOffer(facts.part, h.size, facts.readable, hashes.digest), false)
  }

  datatype SendAction = MarkerComplete | SkipPayload | SendPayload

  /** The sender's decision: what it acknowledges and where its payload starts. */
  datatype Answer = Answer(action: SendAction, acknowledged: nat, start: nat)

  /** validate_complete_skip_source */
  predicate SourceUnchanged(e: Source, hashes: Hashes) {
    |e.content| == e.size && e.imohash != "" && hashes.imo(e.content) == e.imohash
  }

  /** recv_resume_request and the rest of the SendFileSession constructor. */
  function AnswerFor(e: Source, request: Request, hashes: Hashes): Result<Answer> {
    var offset := if request.offer.offset > e.size then 0 else request.offer.offset;
    if KindOf(e) != FileKind then Ok(Answer(MarkerComplete, offset, 0))
    else if offset == e.size && request.completeSkip then
      if SourceUnchanged(e, hashes) then Ok(Answer(SkipPayload, e.size, e.size))
      else Err("source file changed since manifest")
    else if offset > |e.content| then Err("source shorter than resume offset")
    else
      var prefix := request.offer.prefixDigest;
      var mismatch := offset > 0 && prefix != "" && prefix != hashes.digest.of(e.content[..offset]);
      Ok(if mismatch then Answer(SendPayload, 0, 0) else Answer(SendPayload, offset, offset))
  }

  datatype ReceiveAction = Marker | Skipped | ReceivePayload

  /** The receiver's session: where it resumes and what its part file then holds. */
  datatype Opening = Opening(action: ReceiveAction, resumeOffset: nat, part: seq<byte>)

  /** The end of the ReceiveFileSession constructor, once an ordinary resume request is answered. */
  function ResumeAt(h: Header, facts: Facts, hashes: Hashes, acknowledged: nat): Result<Opening> {
    var offer := MakeOffer(facts.part, h.size, facts.readable, hashes.digest);
    var checked := CheckAck(acknowledged, offer.offset, h.size);
    if checked.Err? then Err(checked.error)
    else if acknowledged != offer.offset && acknowledged > 0 && !facts.readable then
      Err("partial file changed during resume setup")
    else
      var part := if facts.part.Some? && acknowledged <= |facts.part.value| then facts.part.value[..acknowledged] else [];
      Ok(Opening(ReceivePayload, acknowledged, part))
  }

  /**
   The receiver's constructor after its request, given the acknowledgements it reads. A conflict
   skip that is not accepted ends the transfer; a duplicate skip falls back to a second request.
   */
  function OpenFor(h: Header, facts: Facts, hashes: Hashes, acks: seq<nat>): Result<Opening> {
    if acks == [] then Err("expected resume ack")
    else if HeaderKind(h) != FileKind then
      if acks[0] > 0 then Err("invalid resume ack") else Ok(Opening(Marker, 0, []))
    else if facts.skip || IsDuplicate(h, facts, hashes) then
      if acks[0] > h.size then Err("invalid resume ack")
      else if acks[0] == h.size then Ok(Opening(Skipped, h.size, []))
      else if facts.skip then Err("sender rejected conflict skip")
      else if |acks| < 2 then Err("expected resume ack")
      else ResumeAt(h, facts, hashes, acks[1])
    else ResumeAt(h, facts, hashes, acks[0])
  }

  /** The entry the sender lists is the file it holds. */
  predicate Describes(e: Source, hashes: Hashes) {
    KindOf(e) == FileKind ==> SourceUnchanged(e, hashes)
  }

  predicate Matching(send: SendAction, receive: ReceiveAction) {
    match send
    case MarkerComplete => receive == Marker
    case SkipPayload => receive == Skipped
    case SendPayload => receive == ReceivePayload
  }

  /** Both ends see the same kind of entry. */
  lemma KindsAgree(e: Source)
    ensures HeaderKind(HeaderFor(e)) == KindOf(e)
  {
  }

  /** Some sender could list the entry: files are not named like directories. */
  ghost predicate Listable(e: Entry) {
    && (e.kind == FileKind && e.path != "" ==> e.path[|e.path| - 1] != '/')
    && exists s: Source :: s.relative == e.path && KindOf(s) == e.kind && HeaderFor(s).size == e.size
  }

  /** Preflight refuses an entry the filesystem has nothing against exactly when no sender lists such an entry. */
  lemma RefusedExactly(e: Entry)
    requires !e.blocked && e.path != ""
    ensures Refused(e) <==> !Listable(e)
  {
    var s := Source(e.path, e.kind == SymlinkKind, e.link, e.size, "", []);
    assert !Refused(e) ==> s.relative == e.path && KindOf(s) == e.kind && HeaderFor(s).size == e.size;
  }

  /**
   A file the receiver wants to skip is skipped if and only if the source still is what the manifest
   announced, otherwise the sender ends the transfer; a file it does not want to skip never is.
   */
  lemma SkippedOnlyIfUnchanged(e: Source, facts: Facts, hashes: Hashes)
    requires KindOf(e) == FileKind
    ensures var answer := AnswerFor(e, RequestFor(HeaderFor(e), facts, hashes), hashes);
      var wanted := facts.skip
        || (e.imohash != "" && facts.existing.Some? && hashes.imo(facts.existing.value) == e.imohash);
      && (wanted ==> (answer.Ok? <==> |e.content| == e.size && e.imohash != "" && hashes.imo(e.content) == e.imohash))
      && (answer.Ok? ==> (answer.value.action == SkipPayload <==> wanted))
      && (answer.Ok? ==> answer.value.action != MarkerComplete)
  {
    KindsAgree(e);
  }

  /**
   Whatever the receiver requests, honest or not: a payload starts inside the source at the offset
   acknowledged, at the requested one or at 0, and not past a prefix whose digest was given and
   differs; the file is skipped only if that was asked for all of it and the source is unchanged.
   The sender gives up exactly when one of the two cannot be done.
   */
  lemma AnswerIsSafe(e: Source, request: Request, hashes: Hashes)
    requires KindOf(e) == FileKind
    ensures var r, offset := AnswerFor(e, request, hashes), request.offer.offset;
      var skips := request.completeSkip && (offset == e.size || (e.size == 0 && offset > 0));
      var same := |e.content| == e.size && e.imohash != "" && hashes.imo(e.content) == e.imohash;
      && (r.Ok? <==> if skips then same else offset > e.size || offset <= |e.content|)
      && (r.Ok? ==> (r.value.action == SkipPayload <==> skips) && r.value.action != MarkerComplete)
      && (r.Ok? && skips ==> r.value.acknowledged == e.size)
      && (r.Ok? && !skips ==>
            && r.value.start == r.value.acknowledged <= |e.content|
            && (r.value.start == 0 || r.value.start == offset)
            && (r.value.start == offset <==>
                  || offset == 0
                  || (offset <= e.size && (request.offer.prefixDigest == ""
                                           || request.offer.prefixDigest == hashes.digest.of(e.content[..offset])))))
  {
  }

  /** The receiver would rather not have the file: its policy says so, or it has a duplicate. */
  predicate Unwanted(h: Header, facts: Facts, hashes: Hashes) {
    facts.skip || (h.imohash != "" && facts.existing.Some? && hashes.imo(facts.existing.value) == h.imohash)
  }

  /**
   Whatever the sender acknowledges, honest or not: the receiver skips a file only when it asked to
   and was granted exactly that, a conflict skip is never turned into a transfer, and a resumed part
   file is a prefix of the one on disk, no longer than what was offered or declared.
   */
  lemma OpeningIsSafe(h: Header, facts: Facts, hashes: Hashes, acks: seq<nat>)
    requires OpenFor(h, facts, hashes, acks).Ok?
    ensures acks != []
    ensures var o := OpenFor(h, facts, hashes, acks).value;
      && (o.action == Marker <==> HeaderKind(h) != FileKind)
      && (o.action == Marker ==> acks[0] == 0 && o.part == [])
      && (o.action == Skipped <==> HeaderKind(h) == FileKind && Unwanted(h, facts, hashes) && acks[0] == h.size)
      && (o.action == ReceivePayload ==>
            && HeaderKind(h) == FileKind && !facts.skip
            && o.resumeOffset == acks[if Unwanted(h, facts, hashes) && |acks| > 1 then 1 else 0]
            && |o.part| == o.resumeOffset <= h.size
            && (o.resumeOffset > 0 ==> facts.part.Some? && facts.readable && o.part <= facts.part.value))
  {
  }

  /**
   Lockstep: whatever the receiver has on disk, an honest pair completes the handshake, with
   matching actions and the same offset, which is resumed exactly when the part file has the digest
   of the source prefix of its length; with a collision-free digest the part file then is that prefix.
   */
  lemma HandshakeInLockstep(e: Source, facts: Facts, hashes: Hashes)
    requires Describes(e, hashes) && hashes.digest.NeverEmpty()
    ensures var request := RequestFor(HeaderFor(e), facts, hashes);
      var answer := AnswerFor(e, request, hashes);
      answer.Ok? &&
      var opening := OpenFor(HeaderFor(e), facts, hashes, [answer.value.acknowledged]);
      && opening.Ok?
      && Matching(answer.value.action, opening.value.action)
      && answer.value.start == opening.value.resumeOffset
      && (opening.value.action == Marker <==> KindOf(e) != FileKind)
      && (opening.value.action == ReceivePayload ==>
            && answer.value.start == Negotiate(e.content, facts.part, facts.readable, hashes.digest)
            && |opening.value.part| == answer.value.start <= |e.content|
            && (hashes.digest.Injective() ==> opening.value.part == e.content[..answer.value.start]))
  {
    KindsAgree(e);
    NegotiateExactly(e.content, facts.part, facts.readable, hashes.digest);
    if facts.part.Some? {
      assert facts.part.value[..|facts.part.value|] == facts.part.value;
    }
    if hashes.digest.Injective() {
      AcceptedMeansPrefix(e.content, facts.part, facts.readable, hashes.digest);
    }
  }
}
