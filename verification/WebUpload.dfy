/**
 Staged browser uploads: space is reserved when an upload starts, chunks are appended at the
 confirmed offset only, and a finished upload is handed out as a file.
 */
module WebUploads {
  import opened Prelude

  const MAX_CHUNK: nat := 768 * 1024

  /** `accepted` lists the chunks confirmed so far; `file` is what the staged file holds. */
  datatype Upload = Upload(expected: nat, received: nat, finished: bool, updatedAt: nat,
                           file: seq<byte>, accepted: seq<seq<byte>>)

  datatype Limits = Limits(maxActive: nat, reserve: nat, ttl: nat)

  /** `available` is the free space of the staging disk. */
  datatype Store = Store(uploads: map<string, Upload>, available: nat)

  function Concat(chunks: seq<seq<byte>>): seq<byte> {
    if chunks == [] then [] else Concat(chunks[..|chunks| - 1]) + chunks[|chunks| - 1]
  }

  // ---------------------------------------------------------------- reserved space

  function Remaining(u: Upload): nat {
    if u.received <= u.expected then u.expected - u.received else 0
  }

  /** The bytes all uploads together may still append. */
  ghost function Reserved(uploads: map<string, Upload>): nat
    decreases |uploads|
  {
    if uploads == map[] then 0
    else
      var id :| id in uploads;
      Remaining(uploads[id]) + Reserved(uploads - {id})
  }

  /** The sum may start from any upload. */
  lemma {:induction false} ReservedFrom(uploads: map<string, Upload>, id: string)
    requires id in uploads
    ensures Reserved(uploads) == Remaining(uploads[id]) + Reserved(uploads - {id})
    decreases |uploads|
  {
    var first :| first in uploads && Reserved(uploads) == Remaining(uploads[first]) + Reserved(uploads - {first});
    if first != id {
      ReservedFrom(uploads - {first}, id);
      ReservedFrom(uploads - {id}, first);
      assert uploads - {first} - {id} == uploads - {id} - {first};
    }
  }

  lemma ReservedSet(uploads: map<string, Upload>, id: string, u: Upload)
    ensures Reserved(uploads[id := u])
            == Reserved(uploads) + Remaining(u) - (if id in uploads then Remaining(uploads[id]) else 0)
  {
    ReservedFrom(uploads[id := u], id);
    if id in uploads {
      ReservedFrom(uploads, id);
      assert uploads[id := u] - {id} == uploads - {id};
    } else {
      assert uploads[id := u] - {id} == uploads;
    }
  }

  lemma {:induction false} ReservedShrinks(small: map<string, Upload>, large: map<string, Upload>)
    requires forall id :: id in small ==> id in large && small[id] == large[id]
    ensures Reserved(small) <= Reserved(large)
    decreases |small|
  {
    if small != map[] {
      var id :| id in small;
      ReservedFrom(small, id);
      ReservedFrom(large, id);
      ReservedShrinks(small - {id}, large - {id});
    }
  }

  function Usable(available: nat, reserve: nat): nat {
    if available > reserve then available - reserve else 0
  }

  // ---------------------------------------------------------------- operations

  predicate Expired(u: Upload, limits: Limits, now: nat) {
    !(limits.ttl > 0 && now <= u.updatedAt + limits.ttl)
  }

  function Purged(uploads: map<string, Upload>, limits: Limits, now: nat): map<string, Upload> {
    map id | id in uploads && !Expired(uploads[id], limits, now) :: uploads[id]
  }

  /** What happens to the bytes of an append: written, undone, or left behind in part. */
  datatype Disk = Written | RolledBack | LeftBehind(count: nat)

  datatype Action =
    | Start(id: string, size: nat, now: nat, observed: nat)
    | Append(id: string, offset: nat, bytes: seq<byte>, disk: Disk, now: nat)
    | Finish(id: string, now: nat)
    | Touch(id: string, now: nat)
    | Release(id: string)
    | Cancel(id: string)
    | Purge(now: nat)

  /**
   What the environment may do: a new upload gets an unused id, the free space seen is not less
   than what appends left, and a failed append that is not undone leaves some of its bytes.
   */
  predicate Enabled(s: Store, a: Action) {
    match a
    case Start(id, size, _, observed) => id !in s.uploads && s.available <= observed <= U64_MAX && size <= U64_MAX
    case Append(id, offset, bytes, disk, _) =>
      && (disk.LeftBehind? ==> 0 < disk.count <= |bytes| <= s.available)
      && (Accepts(s, id, offset, bytes) ==> |bytes| <= s.available)
    case _ => true
  }

  /** The space test of start. */
  ghost predicate HasRoom(s: Store, limits: Limits, size: nat) {
    var usable := Usable(s.available, limits.reserve);
    size <= usable && Reserved(s.uploads) <= usable - size
  }

  ghost function StartUpload(s: Store, limits: Limits, id: string, size: nat, now: nat, observed: nat): Store {
    var t := Store(Purged(s.uploads, limits, now), observed);
    if |t.uploads| >= limits.maxActive || (size > 0 && !HasRoom(t, limits, size)) then t
    else t.(uploads := t.uploads[id := Upload(size, 0, false, now, [], [])])
  }

  /** The checks of append, up to the write. */
  predicate Accepts(s: Store, id: string, offset: nat, bytes: seq<byte>) {
    && |bytes| <= MAX_CHUNK && id in s.uploads
    && var u := s.uploads[id];
       !u.finished && offset == u.received && u.received <= u.expected && |bytes| <= u.expected - u.received
       && |u.file| == u.received
  }

  function AppendChunk(s: Store, id: string, offset: nat, bytes: seq<byte>, disk: Disk, now: nat): Store
    requires disk.LeftBehind? ==> disk.count <= |bytes| <= s.available
    requires Accepts(s, id, offset, bytes) ==> |bytes| <= s.available
  {
    if !Accepts(s, id, offset, bytes) then s
    else
      var u := s.uploads[id];
      match disk
      case Written =>
        Store(s.uploads[id := u.(received := u.received + |bytes|, updatedAt := now, file := u.file + bytes,
                                 accepted := u.accepted + [bytes])],
              s.available - |bytes|)
      case RolledBack => s
      case LeftBehind(count) =>
        Store(s.uploads[id := u.(file := u.file + bytes[..count])], s.available - count)
  }

  ghost function Step(s: Store, limits: Limits, a: Action): Store
    requires Enabled(s, a)
  {
    match a
    case Start(id, size, now, observed) => StartUpload(s, limits, id, size, now, observed)
    case Append(id, offset, bytes, disk, now) => AppendChunk(s, id, offset, bytes, disk, now)
    case Finish(id, now) =>
      if id in s.uploads && s.uploads[id].received == s.uploads[id].expected then
        s.(uploads := s.uploads[id := s.uploads[id].(finished := true, updatedAt := now)])
      else s
    case Touch(id, now) =>
      var kept := Purged(s.uploads, limits, now);
      s.(uploads := if id in kept && kept[id].finished then kept[id := kept[id].(updatedAt := now)] else kept)
    case Release(id) => s.(uploads := s.uploads - {id})
    case Cancel(id) => s.(uploads := s.uploads - {id})
    case Purge(now) => s.(uploads := Purged(s.uploads, limits, now))
  }

  /** A failed append, if there is one, is undone. */
  predicate Undone(a: Action) {
    a.Append? ==> !a.disk.LeftBehind?
  }

  // ---------------------------------------------------------------- staged files

  /** A staged file begins with the accepted chunks, and is exactly them unless an undo failed. */
  ghost predicate FileFits(u: Upload) {
    && u.received == |Concat(u.accepted)| <= u.expected
    && Concat(u.accepted) <= u.file
    && (u.received == u.expected ==> u.file == Concat(u.accepted))
    && (u.finished ==> u.received == u.expected)
  }

  ghost predicate FilesFit(s: Store) {
    forall id :: id in s.uploads ==> FileFits(s.uploads[id])
  }

  lemma AppendFits(u: Upload, bytes: seq<byte>, disk: Disk, now: nat)
    requires FileFits(u) && |bytes| <= u.expected - u.received && |u.file| == u.received
    requires disk.LeftBehind? ==> 0 < disk.count <= |bytes|
    ensures disk.Written? ==> FileFits(u.(received := u.received + |bytes|, updatedAt := now, finished := false,
                                          file := u.file + bytes, accepted := u.accepted + [bytes]))
    ensures disk.LeftBehind? ==> FileFits(u.(file := u.file + bytes[..disk.count]))
  {
    assert (u.accepted + [bytes])[..|u.accepted|] == u.accepted;
    assert u.file == Concat(u.accepted);
  }

  lemma FilesStep(s: Store, limits: Limits, a: Action)
    requires FilesFit(s) && Enabled(s, a)
    ensures FilesFit(Step(s, limits, a))
  {
    if a.Append? && Accepts(s, a.id, a.offset, a.bytes) {
      AppendFits(s.uploads[a.id], a.bytes, a.disk, a.now);
    }
  }

  /** A staged file is exactly its accepted chunks, of size `received`, within the declared size. */
  ghost predicate FileExact(u: Upload) {
    u.file == Concat(u.accepted) && |u.file| == u.received <= u.expected
  }

  ghost predicate FilesExact(s: Store) {
    forall id :: id in s.uploads ==> FileExact(s.uploads[id])
  }

  lemma ConcatAppend(chunks: seq<seq<byte>>, bytes: seq<byte>)
    ensures Concat(chunks + [bytes]) == Concat(chunks) + bytes
  {
    assert (chunks + [bytes])[..|chunks|] == chunks;
  }

  /** A step keeps every file exact, if a failed append is undone. */
  lemma ExactStep(s: Store, limits: Limits, a: Action)
    requires FilesExact(s) && Enabled(s, a) && Undone(a)
    ensures FilesExact(Step(s, limits, a))
  {
    if a.Append? && Accepts(s, a.id, a.offset, a.bytes) {
      ConcatAppend(s.uploads[a.id].accepted, a.bytes);
    }
  }

  /** An append the store tries leaves its file exact if and only if no bytes are left behind. */
  lemma LeftBehindIsInexact(s: Store, id: string, offset: nat, bytes: seq<byte>, disk: Disk, now: nat)
    requires FilesExact(s) && Enabled(s, Action.Append(id, offset, bytes, disk, now)) && Accepts(s, id, offset, bytes)
    ensures FileExact(AppendChunk(s, id, offset, bytes, disk, now).uploads[id]) <==> !disk.LeftBehind?
  {
    ConcatAppend(s.uploads[id].accepted, bytes);
  }

  // ---------------------------------------------------------------- the reservation

  ghost predicate ReservationHolds(s: Store, limits: Limits) {
    Reserved(s.uploads) <= Usable(s.available, limits.reserve)
  }

  lemma StartKeepsReservation(s: Store, limits: Limits, a: Action)
    requires a.Start? && Enabled(s, a) && ReservationHolds(s, limits)
    ensures ReservationHolds(Step(s, limits, a), limits)
  {
    var t := Store(Purged(s.uploads, limits, a.now), a.observed);
    ReservedShrinks(t.uploads, s.uploads);
    ReservedSet(t.uploads, a.id, Upload(a.size, 0, false, a.now, [], []));
  }

  lemma AppendKeepsReservation(s: Store, limits: Limits, a: Action)
    requires a.Append? && !a.disk.LeftBehind? && Enabled(s, a) && ReservationHolds(s, limits)
    ensures ReservationHolds(Step(s, limits, a), limits)
  {
    if Accepts(s, a.id, a.offset, a.bytes) {
      var u := s.uploads[a.id];
      ReservedFrom(s.uploads, a.id);
      ReservedSet(s.uploads, a.id, u.(received := u.received + |a.bytes|, updatedAt := a.now,
                                      file := u.file + a.bytes, accepted := u.accepted + [a.bytes]));
    }
  }

  lemma OthersKeepReservation(s: Store, limits: Limits, a: Action)
    requires !a.Start? && !a.Append? && Enabled(s, a) && ReservationHolds(s, limits)
    ensures ReservationHolds(Step(s, limits, a), limits)
  {
    var t := Step(s, limits, a);
    match a
    case Finish(id, now) =>
      if t != s {
        ReservedSet(s.uploads, id, t.uploads[id]);
      }
    case Touch(id, now) =>
      var kept := Purged(s.uploads, limits, now);
      ReservedShrinks(kept, s.uploads);
      if id in kept && kept[id].finished {
        ReservedSet(kept, id, kept[id].(updatedAt := now));
      }
    case _ => ReservedShrinks(t.uploads, s.uploads);
  }

  /** Bytes left behind by a failed append are paid from the slack of the reservation: exactly then it survives. */
  lemma LeftBehindNeedsSlack(s: Store, limits: Limits, id: string, offset: nat, bytes: seq<byte>, count: nat, now: nat)
    requires ReservationHolds(s, limits)
    requires Enabled(s, Action.Append(id, offset, bytes, LeftBehind(count), now)) && Accepts(s, id, offset, bytes)
    ensures ReservationHolds(AppendChunk(s, id, offset, bytes, LeftBehind(count), now), limits) <==>
      Reserved(s.uploads) + count <= Usable(s.available, limits.reserve)
  {
    ReservedFrom(s.uploads, id);
    var u := s.uploads[id];
    ReservedSet(s.uploads, id, u.(file := u.file + bytes[..count]));
  }

  /** One byte left behind on a full reservation breaks it. */
  lemma LeftBehindBreaks(limits: Limits, id: string)
    ensures var s := Store(map[id := Upload(1, 0, false, 0, [], [])], limits.reserve + 1);
      && FilesExact(s) && ReservationHolds(s, limits)
      && Enabled(s, Action.Append(id, 0, [7], LeftBehind(1), 0))
      && !ReservationHolds(AppendChunk(s, id, 0, [7], LeftBehind(1), 0), limits)
  {
    var u := Upload(1, 0, false, 0, [], []);
    var s := Store(map[id := u], limits.reserve + 1);
    ReservedFrom(s.uploads, id);
    assert s.uploads - {id} == map[];
    LeftBehindNeedsSlack(s, limits, id, 0, [7], 1, 0);
  }

  ghost predicate CanRun(s: Store, limits: Limits, actions: seq<Action>)
    decreases |actions|
  {
    actions != [] ==> Enabled(s, actions[0]) && CanRun(Step(s, limits, actions[0]), limits, actions[1..])
  }

  ghost function RunAll(s: Store, limits: Limits, actions: seq<Action>): Store
    requires CanRun(s, limits, actions)
    decreases |actions|
  {
    if actions == [] then s else RunAll(Step(s, limits, actions[0]), limits, actions[1..])
  }

  lemma CountStep(s: Store, limits: Limits, a: Action)
    requires |s.uploads| <= limits.maxActive && Enabled(s, a)
    ensures |Step(s, limits, a).uploads| <= limits.maxActive
  {
    var t := Step(s, limits, a);
    if a.Start? {
      var kept := Purged(s.uploads, limits, a.now);
      Fewer(kept.Keys, s.uploads.Keys);
      assert |kept[a.id := Upload(a.size, 0, false, a.now, [], [])]| == |kept| + 1;
    } else {
      Fewer(t.uploads.Keys, s.uploads.Keys);
    }
  }

  lemma Fewer(small: set<string>, large: set<string>)
    requires small <= large
    ensures |small| <= |large|
  {
    assert large == small + (large - small);
  }

  lemma ReservationStep(s: Store, limits: Limits, a: Action)
    requires ReservationHolds(s, limits) && Enabled(s, a) && Undone(a)
    ensures ReservationHolds(Step(s, limits, a), limits)
  {
    if a.Start? {
      StartKeepsReservation(s, limits, a);
    } else if a.Append? {
      AppendKeepsReservation(s, limits, a);
    } else {
      OthersKeepReservation(s, limits, a);
    }
  }

  /**
   Over every run: at most `maxActive` uploads are staged; each staged file begins with its
   accepted chunks in order, never beyond its declared size, and a finished one is exactly them. As
   long as failed appends are undone, every staged file is exactly its accepted chunks, and what the
   uploads may still append fits in the usable space.
   */
  lemma {:induction false} StagingOverEveryRun(s: Store, limits: Limits, actions: seq<Action>)
    requires FilesFit(s) && |s.uploads| <= limits.maxActive && CanRun(s, limits, actions)
    ensures var t := RunAll(s, limits, actions); FilesFit(t) && |t.uploads| <= limits.maxActive
    ensures (forall i :: 0 <= i < |actions| ==> Undone(actions[i])) ==>
      && (FilesExact(s) ==> FilesExact(RunAll(s, limits, actions)))
      && (ReservationHolds(s, limits) ==> ReservationHolds(RunAll(s, limits, actions), limits))
    decreases |actions|
  {
    if actions != [] {
      var a := actions[0];
      FilesStep(s, limits, a);
      CountStep(s, limits, a);
      if Undone(a) {
        if FilesExact(s) {
          ExactStep(s, limits, a);
        }
        if ReservationHolds(s, limits) {
          ReservationStep(s, limits, a);
        }
      }
      StagingOverEveryRun(Step(s, limits, a), limits, actions[1..]);
    }
  }

  // ---------------------------------------------------------------- idle uploads

  /** The uploads still within their idle time. */
  function Live(uploads: map<string, Upload>, limits: Limits, now: nat): map<string, Upload> {
    map id | id in uploads && limits.ttl > 0 && now - uploads[id].updatedAt <= limits.ttl :: uploads[id]
  }

  /** A purge drops exactly the uploads idle for longer than the limit, or all of them without one. */
  lemma PurgedExactly(uploads: map<string, Upload>, limits: Limits, now: nat, id: string)
    ensures id in Purged(uploads, limits, now) <==>
      id in uploads && limits.ttl > 0 && now - uploads[id].updatedAt <= limits.ttl
    ensures id in Purged(uploads, limits, now) ==> Purged(uploads, limits, now)[id] == uploads[id]
  {
  }

  /** Touching renews a finished upload that is still there and nothing else, and drops the idle ones. */
  lemma TouchedExactly(s: Store, limits: Limits, id: string, now: nat)
    ensures var t, kept := Step(s, limits, Touch(id, now)), Live(s.uploads, limits, now);
      && t.available == s.available && t.uploads.Keys == kept.Keys
      && forall other :: other in kept ==>
           t.uploads[other] == if other == id && kept[id].finished then kept[id].(updatedAt := now) else kept[other]
  {
    assert Purged(s.uploads, limits, now) == Live(s.uploads, limits, now);
  }

  function TimeOf(a: Action, otherwise: nat): nat {
    match a
    case Start(_, _, now, _) => now
    case Append(_, _, _, _, now) => now
    case Finish(_, now) => now
    case Touch(_, now) => now
    case Purge(now) => now
    case _ => otherwise
  }

  /** The upload is not given up, and every action falls into the idle time that begins at `from`. */
  predicate WithinIdle(limits: Limits, id: string, from: nat, a: Action) {
    && a != Cancel(id) && a != Release(id) && from <= TimeOf(a, from) <= from + limits.ttl
  }

  /** The upload is there, was used since `from`, and has lost none of the accepted chunks. */
  predicate Holds(s: Store, id: string, from: nat, accepted: seq<seq<byte>>) {
    id in s.uploads && from <= s.uploads[id].updatedAt && accepted <= s.uploads[id].accepted
  }

  lemma StepHolds(s: Store, limits: Limits, id: string, from: nat, accepted: seq<seq<byte>>, a: Action)
    requires limits.ttl > 0 && Holds(s, id, from, accepted) && Enabled(s, a) && WithinIdle(limits, id, from, a)
    ensures Holds(Step(s, limits, a), id, from, accepted)
  {
    PurgedExactly(s.uploads, limits, TimeOf(a, from), id);
  }

  /** Whatever else happens within its idle time, an upload nobody gives up stays, with all its accepted chunks. */
  lemma {:induction false} ActiveUploadStays(s: Store, limits: Limits, id: string, from: nat, accepted: seq<seq<byte>>,
                                             actions: seq<Action>)
    requires limits.ttl > 0 && Holds(s, id, from, accepted) && CanRun(s, limits, actions)
    requires forall i :: 0 <= i < |actions| ==> WithinIdle(limits, id, from, actions[i])
    ensures Holds(RunAll(s, limits, actions), id, from, accepted)
    decreases |actions|
  {
    if actions != [] {
      StepHolds(s, limits, id, from, accepted, actions[0]);
      ActiveUploadStays(Step(s, limits, actions[0]), limits, id, from, accepted, actions[1..]);
    }
  }

  /** What one append does: an accepted chunk extends its own upload, a refused or undone one changes nothing. */
  lemma AppendMeans(s: Store, id: string, offset: nat, bytes: seq<byte>, disk: Disk, now: nat)
    requires Enabled(s, Action.Append(id, offset, bytes, disk, now))
    ensures var t := AppendChunk(s, id, offset, bytes, disk, now);
      && (Accepts(s, id, offset, bytes) && disk.Written? ==>
            && id in t.uploads && Concat(t.uploads[id].accepted) == Concat(s.uploads[id].accepted) + bytes
            && t.uploads[id].received == offset + |bytes| <= t.uploads[id].expected == s.uploads[id].expected
            && t.available + |bytes| == s.available)
      && (!(Accepts(s, id, offset, bytes) && disk.Written?) && !disk.LeftBehind? ==> t == s)
      && (forall other :: other != id ==>
            (other in t.uploads <==> other in s.uploads) && (other in t.uploads ==> t.uploads[other] == s.uploads[other]))
      && (FilesFit(s) ==> FilesFit(t))
      && (FilesExact(s) && !disk.LeftBehind? ==> FilesExact(t))
  {
    if Accepts(s, id, offset, bytes) {
      ConcatAppend(s.uploads[id].accepted, bytes);
      if FileFits(s.uploads[id]) {
        AppendFits(s.uploads[id], bytes, disk, now);
      }
    }
  }

  /** A place for one more, and room on disk for it, for all that is still to come, and for the reserve. */
  ghost predicate CanStart(uploads: map<string, Upload>, limits: Limits, size: nat, now: nat, observed: nat) {
    && |Live(uploads, limits, now)| < limits.maxActive
    && (size > 0 ==> size + Reserved(Live(uploads, limits, now)) + limits.reserve <= observed)
  }

  /** A new upload is admitted exactly when there is a place and room for it. */
  lemma StartsExactly(s: Store, limits: Limits, id: string, size: nat, now: nat, observed: nat)
    requires id !in s.uploads
    ensures var t := StartUpload(s, limits, id, size, now, observed);
      && (id in t.uploads <==> CanStart(s.uploads, limits, size, now, observed))
      && t.available == observed
      && (id in t.uploads ==> t.uploads[id] == Upload(size, 0, false, now, [], []))
  {
    assert Purged(s.uploads, limits, now) == Live(s.uploads, limits, now);
  }

  // ---------------------------------------------------------------- an upload from start to finish

  /** The chunks of an upload, each sent at the offset where the one before it ended. */
  function Appends(id: string, offset: nat, chunks: seq<seq<byte>>, now: nat): seq<Action>
    decreases |chunks|
  {
    if chunks == [] then []
    else [Action.Append(id, offset, chunks[0], Written, now)] + Appends(id, offset + |chunks[0]|, chunks[1..], now)
  }

  function Flatten(chunks: seq<seq<byte>>): seq<byte> {
    if chunks == [] then [] else chunks[0] + Flatten(chunks[1..])
  }

  /** The upload is in progress and takes this much more. */
  predicate Takes(s: Store, id: string, more: nat) {
    && id in s.uploads && !s.uploads[id].finished && |s.uploads[id].file| == s.uploads[id].received
    && s.uploads[id].received + more <= s.uploads[id].expected && more <= s.available
  }

  lemma ChunkTaken(s: Store, limits: Limits, id: string, bytes: seq<byte>, now: nat)
    requires Takes(s, id, |bytes|) && |bytes| <= 768 * 1024
    ensures var a := Action.Append(id, s.uploads[id].received, bytes, Written, now);
      && Enabled(s, a)
      && var t := Step(s, limits, a);
         && id in t.uploads && !t.uploads[id].finished && t.uploads[id].expected == s.uploads[id].expected
         && t.uploads[id].file == s.uploads[id].file + bytes
         && t.uploads[id].received == |t.uploads[id].file| && t.available == s.available - |bytes|
  {
  }

  /** Chunks sent in order are all taken, however the file is cut. */
  lemma {:induction false} ChunksTaken(s: Store, limits: Limits, id: string, chunks: seq<seq<byte>>, now: nat)
    requires Takes(s, id, |Flatten(chunks)|)
    requires forall i :: 0 <= i < |chunks| ==> |chunks[i]| <= 768 * 1024
    ensures CanRun(s, limits, Appends(id, s.uploads[id].received, chunks, now))
    ensures var t := RunAll(s, limits, Appends(id, s.uploads[id].received, chunks, now));
      && id in t.uploads && !t.uploads[id].finished && t.uploads[id].expected == s.uploads[id].expected
      && t.uploads[id].file == s.uploads[id].file + Flatten(chunks)
      && t.uploads[id].received == |t.uploads[id].file|
    decreases |chunks|
  {
    if chunks == [] {
      assert s.uploads[id].file + [] == s.uploads[id].file;
    } else {
      var a := Action.Append(id, s.uploads[id].received, chunks[0], Written, now);
      ChunkTaken(s, limits, id, chunks[0], now);
      var t := Step(s, limits, a);
      ChunksTaken(t, limits, id, chunks[1..], now);
      assert Appends(id, s.uploads[id].received, chunks, now)[1..] == Appends(id, t.uploads[id].received, chunks[1..], now);
      assert (s.uploads[id].file + chunks[0]) + Flatten(chunks[1..]) == s.uploads[id].file + Flatten(chunks);
    }
  }

  /**
   An admitted upload whose chunks are sent in order, however the file is cut into them, is complete
   and holds exactly the file: finishing it hands that out.
   */
  lemma UploadDelivers(s: Store, limits: Limits, id: string, chunks: seq<seq<byte>>, now: nat, observed: nat)
    requires Enabled(s, Start(id, |Flatten(chunks)|, now, observed)) && Flatten(chunks) != []
    requires CanStart(s.uploads, limits, |Flatten(chunks)|, now, observed)
    requires forall i :: 0 <= i < |chunks| ==> |chunks[i]| <= 768 * 1024
    ensures var actions := [Start(id, |Flatten(chunks)|, now, observed)] + Appends(id, 0, chunks, now);
      && CanRun(s, limits, actions)
      && var t := RunAll(s, limits, actions);
         id in t.uploads && t.uploads[id].file == Flatten(chunks) && t.uploads[id].received == t.uploads[id].expected
  {
    var start := Start(id, |Flatten(chunks)|, now, observed);
    StartsExactly(s, limits, id, |Flatten(chunks)|, now, observed);
    var t := Step(s, limits, start);
    assert t == StartUpload(s, limits, id, |Flatten(chunks)|, now, observed);
    ChunksTaken(t, limits, id, chunks, now);
    assert [] + Flatten(chunks) == Flatten(chunks);
    assert ([start] + Appends(id, 0, chunks, now))[1..] == Appends(id, 0, chunks, now);
  }

  // ---------------------------------------------------------------- the store

  class WebUploadStore {
    const limits: Limits
    var uploads: map<string, Upload>
    var available: nat

    function View(): Store
      reads this
    {
      Store(uploads, available)
    }

    constructor (limits: Limits, available: nat)
      ensures this.limits == limits && View() == Store(map[], available)
    {
      this.limits, this.uploads, this.available := limits, map[], available;
    }

    /** The sum saturates; no upload is accepted against a saturated sum. */
    method ReservedRemainingBytes() returns (total: nat)
      ensures total == Min(U64_MAX, Reserved(uploads))
    {
      var left := uploads;
      total := 0;
      while left != map[]
        invariant total <= U64_MAX && total + Reserved(left) == Reserved(uploads)
        decreases |left|
      {
        var id :| id in left;
        var remaining := Remaining(left[id]);
        ReservedFrom(left, id);
        if remaining > U64_MAX - total {
          return U64_MAX;
        }
        total := total + remaining;
        left := left - {id};
      }
    }

    method Start(id: string, size: nat, now: nat, observed: nat) returns (started: bool)
      requires Enabled(View(), Action.Start(id, size, now, observed))
      modifies this
      ensures View() == StartUpload(old(View()), limits, id, size, now, observed)
      ensures started <==> id in uploads
      ensures forall other :: other != id ==>
        (other in uploads <==> other in old(uploads) && limits.ttl > 0 && now - old(uploads)[other].updatedAt <= limits.ttl)
      ensures forall other :: other != id && other in uploads ==> uploads[other] == old(uploads)[other]
      ensures started ==> uploads[id] == Upload(size, 0, false, now, [], [])
      ensures started <==> CanStart(old(uploads), limits, size, now, observed)
    {
      StartsExactly(View(), limits, id, size, now, observed);
      uploads := Purged(uploads, limits, now);
      available := observed;
      if |uploads| >= limits.maxActive {
        return false;
      }
      if size > 0 {
        var usable := Usable(available, limits.reserve);
        var reserved := ReservedRemainingBytes();
        if size > usable || reserved > usable - size {
          return false;
        }
      }
      uploads := uploads[id := Upload(size, 0, false, now, [], [])];
      return true;
    }

    method Append(id: string, offset: nat, bytes: seq<byte>, disk: Disk, now: nat) returns (ok: bool)
      requires Enabled(View(), Action.Append(id, offset, bytes, disk, now))
      modifies this
      ensures View() == AppendChunk(old(View()), id, offset, bytes, disk, now)
      ensures ok <==> Accepts(old(View()), id, offset, bytes) && disk.Written?
      ensures ok <==>
        && disk.Written? && |bytes| <= 768 * 1024
        && id in old(uploads) && !old(uploads)[id].finished && |old(uploads)[id].file| == old(uploads)[id].received
        && offset == old(uploads)[id].received && offset + |bytes| <= old(uploads)[id].expected
      ensures ok ==>
        && id in old(uploads) && id in uploads && offset == old(uploads)[id].received
        && Concat(uploads[id].accepted) == Concat(old(uploads)[id].accepted) + bytes
        && uploads[id].received == offset + |bytes| <= uploads[id].expected == old(uploads)[id].expected
        && available + |bytes| == old(available)
      ensures !ok && !disk.LeftBehind? ==> View() == old(View())
      ensures forall other :: other != id ==>
        (other in uploads <==> other in old(uploads)) && (other in uploads ==> uploads[other] == old(uploads)[other])
      ensures FilesFit(old(View())) ==> FilesFit(View())
      ensures FilesExact(old(View())) && !disk.LeftBehind? ==> FilesExact(View())
    {
      AppendMeans(View(), id, offset, bytes, disk, now);
      if !Accepts(View(), id, offset, bytes) {
        return false;
      }
      var u := uploads[id];
      match disk
      case Written =>
        uploads := uploads[id := u.(received := u.received + |bytes|, updatedAt := now, file := u.file + bytes,
                                    accepted := u.accepted + [bytes])];
        available := available - |bytes|;
        return true;
      case RolledBack =>
        return false;
      case LeftBehind(count) =>
        uploads := uploads[id := u.(file := u.file + bytes[..count])];
        available := available - count;
        return false;
    }

    /** What finish hands out is the accepted chunks, of exactly the declared size. */
    method Finish(id: string, now: nat) returns (file: Option<seq<byte>>)
      requires FilesFit(View())
      modifies this
      ensures View() == Step(old(View()), limits, Action.Finish(id, now))
      ensures file.Some? <==> id in old(uploads) && old(uploads)[id].received == old(uploads)[id].expected
      ensures file.Some? ==> file.value == Concat(old(uploads)[id].accepted) && |file.value| == old(uploads)[id].expected
    {
      if id !in uploads || uploads[id].received != uploads[id].expected {
        return None;
      }
      uploads := uploads[id := uploads[id].(finished := true, updatedAt := now)];
      return Some(uploads[id].file);
    }

    method Cancel(id: string)
      modifies this
      ensures View() == Step(old(View()), limits, Action.Cancel(id))
      ensures uploads == old(uploads) - {id} && available == old(available)
    {
      uploads := uploads - {id};
    }
  }
}
