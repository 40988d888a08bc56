/**
 The receiving half of the parallel transfer: MuxReceiveSession and the pieces of
 receive_files_mux around it. Readers on several channels write chunks wherever they belong in
 the part file; an interval map keeps the contiguous prefix; a failed session trims the part file
 to that prefix.
 */
module MuxReceive {
  import opened Prelude
  import opened ByteOrder
  import opened WrittenRanges

  const MUX_CHUNK: nat := 256 * 1024
  const CHUNK_HEADER: nat := 12

  /** zstd is opaque: a compressor and a decompressor that may refuse its input. */
  datatype Codec =
    | Plain
    | Zstd(compress: seq<byte> -> seq<byte>, decompress: (seq<byte>, nat) -> Option<seq<byte>>)
  {
    function Pack(bytes: seq<byte>): seq<byte> {
      match this
      case Plain => bytes
      case Zstd(compress, _) => compress(bytes)
    }

    function Unpack(body: seq<byte>, rawLength: nat): Option<seq<byte>> {
      match this
      case Plain => if |body| != rawLength then None else Some(body)
      case Zstd(_, decompress) => decompress(body, rawLength)
    }

    ghost predicate RoundTrips() {
      forall bytes :: Unpack(Pack(bytes), |bytes|) == Some(bytes)
    }
  }

  /** What one receive session is told before it starts. */
  datatype Session = Session(declared: nat, resume: nat, codec: Codec)

  datatype Tagged = Data(payload: seq<byte>) | ChunkEnd | OtherTag

  datatype Chunk = Chunk(offset: nat, bytes: seq<byte>)

  /** ensure_declared_space, in the order that avoids wrap-around. */
  predicate FitsDeclared(total: nat, declared: nat, next: nat) {
    total <= declared && next <= declared - total
  }

  /** The checks a reader makes on a data frame before it touches the file. */
  function AcceptData(session: Session, payload: seq<byte>): (r: Result<Chunk>)
    ensures r.Ok? ==>
      && session.resume <= r.value.offset
      && r.value.offset + |r.value.bytes| <= session.declared
      && |r.value.bytes| <= MUX_CHUNK
  {
    if |payload| < CHUNK_HEADER then Err("short data frame") else
    var offset := FromBigEndian(payload[..8]);
    var rawLength := FromBigEndian(payload[8..CHUNK_HEADER]);
    if rawLength > MUX_CHUNK then Err("mux data chunk too large")
    else if offset < session.resume then Err("mux data before resume offset")
    else if !FitsDeclared(offset, session.declared, rawLength) then Err("received more data than declared")
    else match session.codec.Unpack(payload[CHUNK_HEADER..], rawLength)
      case None => Err("chunk does not decode")
      case Some(plain) =>
        if |plain| != rawLength then Err("mux decoded chunk size mismatch") else Ok(Chunk(offset, plain))
  }

  /** The payload send_files_mux builds for a chunk. */
  function ChunkPayload(codec: Codec, chunk: Chunk): seq<byte> {
    BigEndian(chunk.offset, 8) + BigEndian(|chunk.bytes|, 4) + codec.Pack(chunk.bytes)
  }

  lemma AcceptRoundTrip(session: Session, chunk: Chunk)
    requires session.codec.RoundTrips()
    requires session.declared <= U64_MAX
    requires session.resume <= chunk.offset && chunk.offset + |chunk.bytes| <= session.declared
    requires |chunk.bytes| <= MUX_CHUNK
    ensures AcceptData(session, ChunkPayload(session.codec, chunk)) == Ok(chunk)
  {
    var payload := ChunkPayload(session.codec, chunk);
    WordCapacities();
    RoundTrip(chunk.offset, 8);
    RoundTrip(|chunk.bytes|, 4);
    assert payload[..8] == BigEndian(chunk.offset, 8);
    assert payload[8..12] == BigEndian(|chunk.bytes|, 4);
    assert payload[12..] == session.codec.Pack(chunk.bytes);
  }

  /**
   Conversely an accepted chunk is what its payload says: the header names its offset and length and
   the body unpacks to its bytes, so an uncompressed payload is the one built for that chunk.
   */
  lemma AcceptedAsSent(session: Session, payload: seq<byte>, chunk: Chunk)
    requires AcceptData(session, payload) == Ok(chunk)
    ensures |payload| >= 12 && payload[..12] == BigEndian(chunk.offset, 8) + BigEndian(|chunk.bytes|, 4)
    ensures session.codec.Unpack(payload[12..], |chunk.bytes|) == Some(chunk.bytes)
    ensures session.codec.Plain? ==> payload == ChunkPayload(session.codec, chunk)
  {
    RoundTripBytes(payload[..8]);
    RoundTripBytes(payload[8..12]);
    assert payload[..12] == payload[..8] + payload[8..12];
    assert payload == payload[..12] + payload[12..];
  }

  /** Seek and write on a file: a gap before the offset reads as zeros, an empty write changes nothing. */
  function WriteAt(file: seq<byte>, offset: nat, data: seq<byte>): (out: seq<byte>)
    ensures data == [] ==> out == file
    ensures data != [] ==> |out| == Max(|file|, offset + |data|)
    ensures forall x :: 0 <= x < |out| ==>
      out[x] == if offset <= x < offset + |data| then data[x - offset] else if x < |file| then file[x] else 0
  {
    if data == [] then file else
    var padded: seq<byte> := if offset <= |file| then file else file + seq(offset - |file|, _ => 0);
    var end := offset + |data|;
    padded[..offset] + data + if end < |padded| then padded[end..] else []
  }

  /** The session's file and history, without the interval map. */
  datatype Receiver = Receiver(file: seq<byte>, log: seq<Range>, written: nat, failed: bool)

  /** What happens to the bytes of an accepted chunk. */
  datatype Disk = WritesAll | WritesOnly(count: nat)

  function Start(session: Session, file: seq<byte>): Receiver {
    Receiver(file, [], session.resume, false)
  }

  /** The critical section of the reader: write, record, count. */
  function Write(r: Receiver, chunk: Chunk): Receiver {
    Receiver(WriteAt(r.file, chunk.offset, chunk.bytes),
             if chunk.bytes == [] then r.log else r.log + [Range(chunk.offset, |chunk.bytes|)],
             r.written + |chunk.bytes|, r.failed)
  }

  /** One reader, one frame: the meaning of an iteration of the reader loop. */
  function Receive(session: Session, r: Receiver, frame: Option<Tagged>, disk: Disk): Receiver {
    match frame
    case Some(ChunkEnd) => r
    case Some(Data(payload)) => (
      match AcceptData(session, payload)
      case Err(_) => r.(failed := true)
      case Ok(chunk) =>
        match disk
        case WritesAll => Write(r, chunk)
        case WritesOnly(count) =>
          r.(file := WriteAt(r.file, chunk.offset, chunk.bytes[..Min(count, |chunk.bytes|)]), failed := true))
    case _ => r.(failed := true)
  }

  lemma ReceiveAccepted(session: Session, r: Receiver, payload: seq<byte>, chunk: Chunk)
    requires AcceptData(session, payload) == Ok(chunk) && chunk.bytes != []
    ensures Receive(session, r, Some(Data(payload)), WritesAll)
      == Receiver(WriteAt(r.file, chunk.offset, chunk.bytes), r.log + [Range(chunk.offset, |chunk.bytes|)],
                  r.written + |chunk.bytes|, r.failed)
  {
  }

  /** Whether that frame is the reader's last: ChunkEnd, or anything that throws. */
  predicate ReaderStops(session: Session, frame: Option<Tagged>, disk: Disk) {
    match frame
    case Some(Data(payload)) => AcceptData(session, payload).Err? || disk.WritesOnly?
    case _ => true
  }

  /** A frame a reader gets through without throwing: ChunkEnd, or an acceptable chunk the disk takes. */
  predicate Harmless(session: Session, frame: Option<Tagged>, disk: Disk) {
    && frame.Some?
    && (frame.value.ChunkEnd? || (frame.value.Data? && AcceptData(session, frame.value.payload).Ok? && disk.WritesAll?))
  }

  /** The flag goes up exactly on a frame that throws: the channel closed, a foreign tag, a bad chunk, a short write. */
  lemma FailsExactly(session: Session, r: Receiver, frame: Option<Tagged>, disk: Disk)
    ensures Receive(session, r, frame, disk).failed <==> r.failed || !Harmless(session, frame, disk)
    ensures ReaderStops(session, frame, disk) <==> frame == Some(ChunkEnd) || !Harmless(session, frame, disk)
  {
  }

  ghost function Prefix(session: Session, r: Receiver): nat {
    LeastOpen(session.resume, r.log)
  }

  /** resize_file */
  function Resize(file: seq<byte>, size: nat): (out: seq<byte>)
    ensures |out| == size
    ensures forall x :: 0 <= x < size ==> out[x] == if x < |file| then file[x] else 0
  {
    if size <= |file| then file[..size] else file + seq(size - |file|, _ => 0)
  }

  /** The interval map never runs ahead of the file: whatever it covers has been written. */
  ghost predicate Backed(session: Session, r: Receiver) {
    && session.resume <= |r.file|
    && (forall range :: range in r.log ==>
          range.size > 0 && session.resume <= range.start && range.start + range.size <= |r.file|)
    && r.written == session.resume + TotalSize(r.log)
  }

  lemma BackedWrite(session: Session, r: Receiver, chunk: Chunk)
    requires Backed(session, r) && session.resume <= chunk.offset
    ensures Backed(session, Write(r, chunk))
  {
    if chunk.bytes != [] {
      TotalSizeAppend(r.log, Range(chunk.offset, |chunk.bytes|));
    }
  }

  /** A longer file backs the same log. */
  lemma BackedLonger(session: Session, r: Receiver, file: seq<byte>, failed: bool)
    requires Backed(session, r) && |r.file| <= |file|
    ensures Backed(session, r.(file := file, failed := failed))
  {
  }

  lemma BackedStep(session: Session, r: Receiver, frame: Option<Tagged>, disk: Disk)
    requires Backed(session, r)
    ensures Backed(session, Receive(session, r, frame, disk))
  {
    if frame.Some? && frame.value.Data? {
      var accepted := AcceptData(session, frame.value.payload);
      if accepted.Ok? && disk.WritesAll? {
        BackedWrite(session, r, accepted.value);
      }
    }
  }

  /** A trimmed part file really ends where the covered bytes end: it is cut, never extended. */
  lemma PrefixIsBacked(session: Session, r: Receiver)
    requires Backed(session, r)
    ensures Prefix(session, r) <= |r.file|
  {
    assert Prefix(session, r) > |r.file| ==> Covered(r.log, |r.file|);
  }

  ghost predicate PendingCovers(pending: map<nat, nat>, x: int) {
    exists k :: k in pending && k <= x < pending[k]
  }

  lemma PendingAfterWiden(pending: map<nat, nat>, start: nat, end: nat, x: int)
    requires start in pending ==> pending[start] <= end
    ensures PendingCovers(pending[start := end], x) <==> PendingCovers(pending, x) || start <= x < end
  {
    var after := pending[start := end];
    assert start in after;
    if k :| k in pending && k <= x < pending[k] {
      assert k in after && k <= x < after[k];
    }
  }

  lemma PendingAfterErase(pending: map<nat, nat>, start: nat, x: int)
    requires start in pending
    ensures PendingCovers(pending, x) <==> PendingCovers(pending - {start}, x) || start <= x < pending[start]
  {
    if k :| k in pending && k <= x < pending[k] && k != start {
      assert k in pending - {start};
    }
  }

  /** MuxReceiveSession: the object the readers share. Each method is one critical section. */
  class MuxReceiveSession {
    const session: Session
    var output: seq<byte>
    var written: nat
    var contiguousPrefix: nat
    var pendingRanges: map<nat, nat>
    var reported: nat
    var failed: bool
    ghost var log: seq<Range>

    /** The interval map says exactly what the log says, from the prefix on. */
    ghost predicate MapsLog()
      reads this`contiguousPrefix, this`pendingRanges, this`log
    {
      && session.resume <= contiguousPrefix
      && (forall k :: k in pendingRanges ==> k < pendingRanges[k])
      && (forall x :: session.resume <= x < contiguousPrefix ==> Covered(log, x))
      && (forall x :: contiguousPrefix <= x ==> (Covered(log, x) <==> PendingCovers(pendingRanges, x)))
    }

    /** Nothing pending touches the prefix: the map is drained. */
    ghost predicate Drained()
      reads this`contiguousPrefix, this`pendingRanges, this`log
    {
      MapsLog() && forall k :: k in pendingRanges ==> contiguousPrefix < k
    }

    ghost predicate Valid()
      reads this
    {
      && Drained()
      && reported == contiguousPrefix - session.resume
      && Backed(session, View())
    }

    ghost function View(): Receiver
      reads this
    {
      Receiver(output, log, written, failed)
    }

    constructor (session: Session, output: seq<byte>)
      requires session.resume <= |output|
      ensures Valid() && this.session == session
      ensures View() == Start(session, output)
    {
      this.session := session;
      this.output := output;
      written, contiguousPrefix, pendingRanges := session.resume, session.resume, map[];
      reported, failed, log := 0, false, [];
    }

    /** The prefix field is the least open offset of everything recorded so far. */
    lemma PrefixIsLeastOpen()
      requires Valid()
      ensures contiguousPrefix == LeastOpen(session.resume, log) == Prefix(session, View())
      ensures forall k :: k in pendingRanges ==> contiguousPrefix < k
    {
      LeastOpenUnique(session.resume, log, contiguousPrefix);
    }

    /**
     record_written_range_locked. `log` is what has been recorded; the returned delta is how far the
     prefix moved.
     */
    method RecordWrittenRange(offset: nat, size: nat) returns (delta: nat)
      requires Drained()
      modifies this`contiguousPrefix, this`pendingRanges, this`log
      ensures log == if size == 0 then old(log) else old(log) + [Range(offset, size)]
      ensures Drained()
      ensures delta == contiguousPrefix - old(contiguousPrefix)
    {
      if size == 0 {
        return 0;
      }
      log := log + [Range(offset, size)];
      forall x ensures Covered(log, x) <==> Covered(old(log), x) || offset <= x < offset + size {
        CoveredAppend(old(log), Range(offset, size), x);
      }
      var previous := contiguousPrefix;
      var end := offset + size;
      if end <= contiguousPrefix {
        assert MapsLog();
        return 0;
      }
      if offset <= contiguousPrefix {
        contiguousPrefix := Max(contiguousPrefix, end);
      } else if offset !in pendingRanges || end > pendingRanges[offset] {
        forall x ensures PendingCovers(pendingRanges[offset := end], x) <==>
                         PendingCovers(pendingRanges, x) || offset <= x < end {
          PendingAfterWiden(pendingRanges, offset, end, x);
        }
        pendingRanges := pendingRanges[offset := end];
      }
      DrainPending();
      delta := contiguousPrefix - previous;
    }

    /** The locked section of the reader, then the counters. */
    method WriteChunk(chunk: Chunk)
      requires Valid() && session.resume <= chunk.offset
      modifies this
      ensures Valid() && View() == Write(old(View()), chunk)
    {
      ghost var before := View();
      BackedWrite(session, before, chunk);
      output := WriteAt(output, chunk.offset, chunk.bytes);
      var delta := RecordWrittenRange(chunk.offset, |chunk.bytes|);
      written := written + |chunk.bytes|;
      reported := reported + delta;
      assert View() == Write(before, chunk);
    }

    /** A write the disk refuses part-way: nothing is recorded and the reader fails. */
    method FailedWrite(chunk: Chunk, count: nat)
      requires Valid()
      modifies this`output, this`failed
      ensures Valid()
      ensures View() == old(View()).(
        file := WriteAt(old(output), chunk.offset, chunk.bytes[..Min(count, |chunk.bytes|)]), failed := true)
    {
      var file := WriteAt(output, chunk.offset, chunk.bytes[..Min(count, |chunk.bytes|)]);
      BackedLonger(session, View(), file, true);
      output, failed := file, true;
    }

    /** record_failure */
    method RecordFailure()
      requires Valid()
      modifies this`failed
      ensures Valid() && View() == old(View()).(failed := true)
    {
      failed := true;
    }

    /**
     One iteration of the reader loop for one frame (None: the channel closed). Seek, write and
     record happen under the file lock; the counters follow. `stop` ends this reader.
     */
    method ReadFrame(frame: Option<Tagged>, disk: Disk) returns (stop: bool)
      requires Valid()
      modifies this
      ensures Valid()
      ensures View() == Receive(session, old(View()), frame, disk)
      ensures stop <==> ReaderStops(session, frame, disk)
      ensures stop <==> frame == Some(ChunkEnd) || (failed && !Harmless(session, frame, disk))
      ensures failed <==> old(failed) || !Harmless(session, frame, disk)
    {
      FailsExactly(session, View(), frame, disk);
      stop := true;
      match frame
      case Some(ChunkEnd) =>
      case Some(Data(payload)) => {
        var accepted := AcceptData(session, payload);
        if accepted.Err? {
          RecordFailure();
        } else if disk.WritesOnly? {
          FailedWrite(accepted.value, disk.count);
        } else {
          WriteChunk(accepted.value);
          stop := false;
        }
      }
      case _ => RecordFailure();
    }

    /**
     truncate_partial_to_contiguous_prefix. When resize_file fails the part file stays as it is; the
     failure is only added to the error text.
     */
    method TruncatePartial(resizes: bool)
      requires Valid()
      modifies this`output
      ensures Prefix(session, old(View())) <= |old(output)|
      ensures output == if resizes then old(output)[..Prefix(session, old(View()))] else old(output)
    {
      PrefixIsLeastOpen();
      PrefixIsBacked(session, View());
      if resizes {
        output := Resize(output, contiguousPrefix);
      }
    }

    /** The end of receive, once every reader is joined: the part is trimmed and the error thrown, or all is well. */
    method Join(resizes: bool) returns (r: Result<nat>)
      requires Valid()
      modifies this`output
      ensures r.Err? <==> failed
      ensures Prefix(session, old(View())) <= |old(output)|
      ensures failed ==>
        output == if resizes then old(output)[..Prefix(session, old(View()))] else old(output)
      ensures !failed ==> r == Ok(written) && output == old(output)
    {
      PrefixIsBacked(session, View());
      if failed {
        TruncatePartial(resizes);
        return Err("mux receive failed");
      }
      return Ok(written);
    }

    method DrainPending()
      requires MapsLog()
      modifies this`contiguousPrefix, this`pendingRanges
      ensures old(contiguousPrefix) <= contiguousPrefix && Drained()
    {
      while pendingRanges != map[]
        invariant old(contiguousPrefix) <= contiguousPrefix && MapsLog()
        decreases |pendingRanges|
      {
        var first := FirstKey(pendingRanges);
        if first > contiguousPrefix {
          break;
        }
        forall x ensures PendingCovers(pendingRanges, x) <==>
                         PendingCovers(pendingRanges - {first}, x) || first <= x < pendingRanges[first] {
          PendingAfterErase(pendingRanges, first, x);
        }
        contiguousPrefix := Max(contiguousPrefix, pendingRanges[first]);
        pendingRanges := pendingRanges - {first};
      }
    }
  }

  lemma {:induction false} LeastKey(keys: set<nat>) returns (least: nat)
    requires keys != {}
    ensures least in keys && forall k :: k in keys ==> least <= k
    decreases |keys|
  {
    var k :| k in keys;
    var rest := keys - {k};
    if rest == {} {
      least := k;
      assert keys == {k};
    } else {
      least := LeastKey(rest);
      if k < least {
        least := k;
      }
      assert keys == rest + {k};
    }
  }

  /** The first entry of an ordered map. */
  method FirstKey(m: map<nat, nat>) returns (first: nat)
    requires m != map[]
    ensures first in m && forall k :: k in m ==> first <= k
  {
    assert m.Keys != {};
    ghost var least := LeastKey(m.Keys);
    first :| first in m.Keys && forall k :: k in m.Keys ==> first <= k;
  }
}
