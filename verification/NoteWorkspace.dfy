/**
 NoteWorkspace: the documents of one participant, the revision of its last local edit per pad,
 and the highest revision the peer acknowledged per pad.
 */
module NoteWorkspaces {
  import opened Prelude
  import opened Decimal
  import opened NoteProtocol

  const NOTE_MAX_BYTES: nat := 1024 * 1024

  datatype Workspace = Workspace(documents: map<string, NoteDocument>, local: map<string, nat>,
                                 acked: map<string, nat>, writer: string, active: string, nextPad: nat)

  function DefaultTitle(pad: string): string {
    if pad == "main" then "Note 1" else pad
  }

  /** ensure_pad_locked */
  function EnsurePad(documents: map<string, NoteDocument>, pad: string, title: string)
    : (after: map<string, NoteDocument>)
    ensures NormalizedPad(pad) in after
  {
    var id := NormalizedPad(pad);
    if id !in documents then
      documents[id := NoteDocument(0, 0, "", id, if title == "" then DefaultTitle(id) else title, "")]
    else if title != "" then documents[id := documents[id].(title := title)]
    else documents
  }

  function InitialWorkspace(writer: string): Workspace {
    Workspace(EnsurePad(map[], "main", "Note 1"), map[], map[], writer, "main", 2)
  }

  /** document.revision + 1 on a 64-bit counter. */
  function NextRevision(revision: nat): nat {
    (revision + 1) % (U64_MAX + 1)
  }

  /** apply_local_locked */
  function ApplyLocal(w: Workspace, id: string, frame: NoteFrame): Workspace
    requires id in w.documents
  {
    w.(documents := w.documents[id := ApplyNoteUpdate(w.documents[id], frame).0],
       local := w.local[id := frame.revision])
  }

  /** update_active; a text above the limit throws before anything is applied. */
  function UpdateActive(w: Workspace, text: string, now: nat): (Workspace, Result<NoteFrame>) {
    var w1 := w.(documents := EnsurePad(w.documents, w.active, ""));
    var id := NormalizedPad(w.active);
    var document := w1.documents[id];
    if |text| > NOTE_MAX_BYTES then (w1, Err("note text exceeds 1 MiB limit"))
    else
      var frame := MakeUpdate(id, NextRevision(document.revision), text, document.title, w.writer, now);
      (ApplyLocal(w1, id, frame), Ok(frame))
  }

  function ClearActive(w: Workspace, now: nat): (Workspace, NoteFrame) {
    var w1 := w.(documents := EnsurePad(w.documents, w.active, ""));
    var id := NormalizedPad(w.active);
    var document := w1.documents[id];
    var frame := MakeClear(id, NextRevision(document.revision), document.title, w.writer, now);
    (ApplyLocal(w1, id, frame), frame)
  }

  function PadName(number: nat): (name: string)
    ensures name != ""
  {
    "pad-" + ToDecimal(number)
  }

  lemma PadNameInjective(m: nat, n: nat)
    requires PadName(m) == PadName(n)
    ensures m == n
  {
    assert PadName(m)[4..] == ToDecimal(m) && PadName(n)[4..] == ToDecimal(n);
    DecimalInjective(m, n);
  }

  /** The first number from `from` on whose pad name is not among `taken`. */
  ghost predicate IsFreeNumber(taken: set<string>, from: nat, number: nat) {
    from <= number && PadName(number) !in taken && forall n :: from <= n < number ==> PadName(n) in taken
  }

  /** The search loop of create_pad; it ends because pad names of distinct numbers are distinct. */
  method FindFreeNumber(taken: set<string>, from: nat) returns (number: nat)
    ensures IsFreeNumber(taken, from, number)
  {
    number := from;
    ghost var rest := taken;
    while PadName(number) in taken
      invariant from <= number && forall n :: from <= n < number ==> PadName(n) in taken
      invariant rest <= taken && forall n :: n >= number && PadName(n) in taken ==> PadName(n) in rest
      decreases |rest|
    {
      forall n | n >= number + 1 && PadName(n) in taken ensures PadName(n) in rest - {PadName(number)} {
        if PadName(n) == PadName(number) {
          PadNameInjective(n, number);
        }
      }
      rest := rest - {PadName(number)};
      number := number + 1;
    }
  }

  /** create_pad, given the free number its loop stops at. */
  function CreatePad(w: Workspace, number: nat, now: nat): (Workspace, NoteFrame) {
    var pad, title := PadName(number), "Note " + ToDecimal(number);
    var w1 := w.(documents := EnsurePad(w.documents, pad, title), active := pad, nextPad := number + 1);
    var document := w1.documents[pad];
    var frame := MakeUpdate(pad, NextRevision(document.revision), document.text, document.title, w.writer, now);
    (ApplyLocal(w1, pad, frame), frame)
  }

  /**
   Creating a pad adds one empty document under a name not used before, at its first revision, makes
   it the active one and announces it; nothing else changes.
   */
  lemma CreatedPad(w: Workspace, number: nat, now: nat)
    requires PadName(number) !in w.documents
    ensures var (after, frame) := CreatePad(w, number, now);
      var pad, title := PadName(number), "Note " + ToDecimal(number);
      && frame == NoteFrame(NoteFrameType.Update, 1, now, w.writer, pad, title, "")
      && after == Workspace(w.documents[pad := NoteDocument(1, now, w.writer, pad, title, "")], w.local[pad := 1],
                            w.acked, w.writer, pad, number + 1)
  {
  }

  function SelectPad(w: Workspace, pad: string): (Workspace, bool) {
    var id := NormalizedPad(pad);
    if id in w.documents then (w.(active := id), true) else (w, false)
  }

  function ApplyRemote(w: Workspace, frame: NoteFrame): (Workspace, bool) {
    if !frame.IsEdit() then (w, false)
    else
      var id := NormalizedPad(frame.pad);
      var documents := EnsurePad(w.documents, frame.pad, frame.title);
      var (document, applied) := ApplyNoteUpdate(documents[id], frame);
      (w.(documents := documents[id := document]), applied)
  }

  function Acknowledge(w: Workspace, frame: NoteFrame): Workspace {
    if !frame.kind.Ack? then w
    else
      var id := NormalizedPad(frame.pad);
      var before := if id in w.acked then w.acked[id] else 0;
      w.(acked := w.acked[id := Max(before, frame.revision)])
  }

  /** synced_locked */
  predicate Synced(w: Workspace) {
    forall pad :: pad in w.local ==> pad in w.acked && w.local[pad] <= w.acked[pad]
  }

  /** The version of a pad a workspace holds; a pad it has never seen counts as untouched. */
  function PadStamp(w: Workspace, pad: string): Stamp {
    if pad in w.documents then DocumentStamp(w.documents[pad]) else INITIAL_STAMP
  }

  // ---------------------------------------------------------------- what a step does to the versions

  /** Pad versions after one edit was applied: the maximum on its pad, untouched elsewhere. */
  ghost predicate AppliesEdit(before: Workspace, after: Workspace, frame: NoteFrame) {
    forall p :: PadStamp(after, p) ==
      if p == frame.pad then StampMax(EditStamp(frame), PadStamp(before, p)) else PadStamp(before, p)
  }

  lemma EnsureKeepsStamps(w: Workspace, pad: string, title: string, p: string)
    ensures PadStamp(w.(documents := EnsurePad(w.documents, pad, title)), p) == PadStamp(w, p)
  {
  }

  lemma ApplyLocalStamps(w: Workspace, id: string, frame: NoteFrame)
    requires id in w.documents && frame.IsEdit() && frame.pad == id
    ensures AppliesEdit(w, ApplyLocal(w, id, frame), frame)
  {
    ApplyTakesMaximum(w.documents[id], frame);
  }

  /** A local edit carries the next revision of its pad and becomes that pad's local revision. */
  ghost predicate LocalEdit(before: Workspace, after: Workspace, frame: NoteFrame) {
    && frame.IsEdit() && frame.pad != ""
    && frame.revision == NextRevision(PadStamp(before, frame.pad).revision)
    && AppliesEdit(before, after, frame)
    && after.local == before.local[frame.pad := frame.revision]
    && after.acked == before.acked
  }

  lemma UpdateIsLocalEdit(w: Workspace, text: string, now: nat)
    ensures var (after, r) := UpdateActive(w, text, now);
      match r
      case Ok(frame) => LocalEdit(w, after, frame)
      case Err(_) => (forall p :: PadStamp(after, p) == PadStamp(w, p)) && after.local == w.local && after.acked == w.acked
  {
    var id := NormalizedPad(w.active);
    var w1 := w.(documents := EnsurePad(w.documents, w.active, ""));
    forall p ensures PadStamp(w1, p) == PadStamp(w, p) {
      EnsureKeepsStamps(w, w.active, "", p);
    }
    var (after, r) := UpdateActive(w, text, now);
    if r.Ok? {
      ApplyLocalStamps(w1, id, r.value);
    }
  }

  lemma ClearIsLocalEdit(w: Workspace, now: nat)
    ensures var (after, frame) := ClearActive(w, now); LocalEdit(w, after, frame)
  {
    var id := NormalizedPad(w.active);
    var w1 := w.(documents := EnsurePad(w.documents, w.active, ""));
    forall p ensures PadStamp(w1, p) == PadStamp(w, p) {
      EnsureKeepsStamps(w, w.active, "", p);
    }
    ApplyLocalStamps(w1, id, ClearActive(w, now).1);
  }

  lemma CreateIsLocalEdit(w: Workspace, number: nat, now: nat)
    ensures var (after, frame) := CreatePad(w, number, now); LocalEdit(w, after, frame)
  {
    var pad, title := PadName(number), "Note " + ToDecimal(number);
    var documents := EnsurePad(w.documents, pad, title);
    var w1 := w.(documents := documents, active := pad, nextPad := number + 1);
    forall p ensures PadStamp(w1, p) == PadStamp(w, p) {
      EnsureKeepsStamps(w, pad, title, p);
    }
    ApplyLocalStamps(w1, pad, CreatePad(w, number, now).1);
  }

  /** A remote edit takes the maximum on its pad, is reported exactly when it is above it, and is nobody's local edit. */
  lemma RemoteTakesMaximum(w: Workspace, frame: NoteFrame)
    requires frame.IsEdit()
    ensures var (after, applied) := ApplyRemote(w, frame);
      && (forall p :: PadStamp(after, p) ==
            if p == NormalizedPad(frame.pad) then StampMax(EditStamp(frame), PadStamp(w, p)) else PadStamp(w, p))
      && (applied <==> !StampLeq(EditStamp(frame), PadStamp(w, NormalizedPad(frame.pad))))
      && after.local == w.local && after.acked == w.acked
  {
    var w1 := w.(documents := EnsurePad(w.documents, frame.pad, frame.title));
    forall p ensures PadStamp(w1, p) == PadStamp(w, p) {
      EnsureKeepsStamps(w, frame.pad, frame.title, p);
    }
    ApplyTakesMaximum(w1.documents[NormalizedPad(frame.pad)], frame);
  }

  lemma RemoteAppliesEdit(w: Workspace, frame: NoteFrame)
    requires frame.IsEdit() && frame.pad != ""
    ensures var after := ApplyRemote(w, frame).0;
      AppliesEdit(w, after, frame) && after.local == w.local && after.acked == w.acked
  {
    RemoteTakesMaximum(w, frame);
  }

  // ---------------------------------------------------------------- titles

  function TitleOf(w: Workspace, pad: string): string {
    if pad in w.documents then w.documents[pad].title else DefaultTitle(pad)
  }

  /** A remote edit that names a title sets it, even when the edit itself is too old to be applied. */
  lemma RemoteSetsTitle(w: Workspace, frame: NoteFrame)
    requires frame.IsEdit()
    ensures var after := ApplyRemote(w, frame).0;
      && TitleOf(after, NormalizedPad(frame.pad)) == (if frame.title != "" then frame.title
                                                      else TitleOf(w, NormalizedPad(frame.pad)))
      && forall p :: p != NormalizedPad(frame.pad) ==> TitleOf(after, p) == TitleOf(w, p)
  {
  }

  /**
   So titles follow the order of arrival, unlike versions: two edits of a pad taken in either order
   leave the same title exactly when they do not name two different ones.
   */
  lemma TitlesFollowArrival(w: Workspace, f: NoteFrame, g: NoteFrame)
    requires f.IsEdit() && g.IsEdit() && NormalizedPad(f.pad) == NormalizedPad(g.pad)
    ensures var pad := NormalizedPad(f.pad);
      TitleOf(ApplyRemote(ApplyRemote(w, f).0, g).0, pad) == TitleOf(ApplyRemote(ApplyRemote(w, g).0, f).0, pad)
      <==> f.title == "" || g.title == "" || f.title == g.title
  {
    RemoteSetsTitle(w, f);
    RemoteSetsTitle(w, g);
    RemoteSetsTitle(ApplyRemote(w, f).0, g);
    RemoteSetsTitle(ApplyRemote(w, g).0, f);
  }

  // ---------------------------------------------------------------- the object

  /** The object itself; each method is one critical section under its mutex. */
  class NoteWorkspace {
    var documents: map<string, NoteDocument>
    var localRevisions: map<string, nat>
    var ackedRevisions: map<string, nat>
    const writer: string
    var activePad: string
    var nextPadNumber: nat

    function View(): Workspace
      reads this
    {
      Workspace(documents, localRevisions, ackedRevisions, writer, activePad, nextPadNumber)
    }

    constructor (writer: string)
      ensures View() == InitialWorkspace(writer)
    {
      this.writer := writer;
      documents := EnsurePad(map[], "main", "Note 1");
      localRevisions, ackedRevisions, activePad, nextPadNumber := map[], map[], "main", 2;
    }

    method ApplyLocally(id: string, frame: NoteFrame)
      requires id in documents
      modifies this`documents, this`localRevisions
      ensures View() == ApplyLocal(old(View()), id, frame)
    {
      var (document, _) := ApplyNoteUpdate(documents[id], frame);
      documents := documents[id := document];
      localRevisions := localRevisions[id := frame.revision];
    }

    method Update(text: string, now: nat) returns (r: Result<NoteFrame>)
      modifies this
      ensures (View(), r) == UpdateActive(old(View()), text, now)
      ensures r.Ok? <==> |text| <= NOTE_MAX_BYTES
      ensures r.Ok? ==>
        && LocalEdit(old(View()), View(), r.value)
        && r.value.kind.Update? && r.value.text == text
        && r.value.pad == NormalizedPad(old(activePad)) && r.value.writer == writer && IncomingText(r.value) == text
      ensures r.Err? ==>
        && (forall pad :: PadStamp(View(), pad) == PadStamp(old(View()), pad))
        && localRevisions == old(localRevisions) && ackedRevisions == old(ackedRevisions)
    {
      UpdateIsLocalEdit(View(), text, now);
      documents := EnsurePad(documents, activePad, "");
      var id := NormalizedPad(activePad);
      if |text| > NOTE_MAX_BYTES {
        return Err("note text exceeds 1 MiB limit");
      }
      var document := documents[id];
      var frame := MakeUpdate(id, NextRevision(document.revision), text, document.title, writer, now);
      ApplyLocally(id, frame);
      return Ok(frame);
    }

    method ClearPad(now: nat) returns (frame: NoteFrame)
      modifies this
      ensures (View(), frame) == ClearActive(old(View()), now)
      ensures LocalEdit(old(View()), View(), frame)
      ensures frame.kind.Clear? && frame.text == ""
      ensures frame.pad == NormalizedPad(old(activePad)) && frame.writer == writer && IncomingText(frame) == ""
    {
      ClearIsLocalEdit(View(), now);
      documents := EnsurePad(documents, activePad, "");
      var id := NormalizedPad(activePad);
      var document := documents[id];
      frame := MakeClear(id, NextRevision(document.revision), document.title, writer, now);
      ApplyLocally(id, frame);
    }

    method Create(now: nat) returns (frame: NoteFrame)
      modifies this
      ensures exists number :: IsFreeNumber(old(documents).Keys, old(nextPadNumber), number)
                            && (View(), frame) == CreatePad(old(View()), number, now)
      ensures activePad == frame.pad && frame.pad !in old(documents) && IncomingText(frame) == "" && frame.revision == 1
      ensures documents == old(documents)[frame.pad := NoteDocument(1, now, writer, frame.pad, frame.title, "")]
    {
      var number := FindFreeNumber(documents.Keys, nextPadNumber);
      CreatedPad(View(), number, now);
      nextPadNumber := number + 1;
      var pad, title := PadName(number), "Note " + ToDecimal(number);
      documents := EnsurePad(documents, pad, title);
      activePad := pad;
      var document := documents[pad];
      frame := MakeUpdate(pad, NextRevision(document.revision), document.text, document.title, writer, now);
      ApplyLocally(pad, frame);
    }

    method Select(pad: string) returns (selected: bool)
      modifies this`activePad
      ensures (View(), selected) == SelectPad(old(View()), pad)
      ensures selected <==> NormalizedPad(pad) in documents
      ensures activePad == if selected then NormalizedPad(pad) else old(activePad)
    {
      var id := NormalizedPad(pad);
      if id !in documents {
        return false;
      }
      activePad := id;
      return true;
    }

    method Remote(frame: NoteFrame) returns (applied: bool)
      modifies this`documents
      ensures (View(), applied) == ApplyRemote(old(View()), frame)
      ensures applied <==> frame.IsEdit() && !StampLeq(EditStamp(frame), PadStamp(old(View()), NormalizedPad(frame.pad)))
      ensures forall pad ::
        PadStamp(View(), pad) == (if frame.IsEdit() && pad == NormalizedPad(frame.pad)
                                  then StampMax(EditStamp(frame), PadStamp(old(View()), pad))
                                  else PadStamp(old(View()), pad))
    {
      if !frame.IsEdit() {
        return false;
      }
      RemoteTakesMaximum(View(), frame);
      documents := EnsurePad(documents, frame.pad, frame.title);
      var id := NormalizedPad(frame.pad);
      var (document, changed) := ApplyNoteUpdate(documents[id], frame);
      documents := documents[id := document];
      return changed;
    }

    method AcknowledgeRevision(frame: NoteFrame)
      modifies this`ackedRevisions
      ensures View() == Acknowledge(old(View()), frame)
      ensures forall pad :: pad in old(ackedRevisions) ==>
        pad in ackedRevisions && old(ackedRevisions)[pad] <= ackedRevisions[pad]
      ensures frame.kind.Ack? ==>
        var id := NormalizedPad(frame.pad);
        id in ackedRevisions && frame.revision <= ackedRevisions[id]
      ensures forall pad :: pad in ackedRevisions ==>
        || (pad in old(ackedRevisions) && ackedRevisions[pad] == old(ackedRevisions)[pad])
        || (frame.kind.Ack? && pad == NormalizedPad(frame.pad) && ackedRevisions[pad] == frame.revision)
    {
      if frame.kind.Ack? {
        var id := NormalizedPad(frame.pad);
        var before := if id in ackedRevisions then ackedRevisions[id] else 0;
        ackedRevisions := ackedRevisions[id := Max(before, frame.revision)];
      }
    }

    /** The scan of synced_locked over the locally edited pads. */
    method IsSynced() returns (synced: bool)
      ensures synced <==> Synced(View())
    {
      var pads := localRevisions.Keys;
      while pads != {}
        invariant pads <= localRevisions.Keys
        invariant forall pad :: pad in localRevisions && pad !in pads ==>
          pad in ackedRevisions && localRevisions[pad] <= ackedRevisions[pad]
        decreases |pads|
      {
        var pad :| pad in pads;
        if pad !in ackedRevisions || ackedRevisions[pad] < localRevisions[pad] {
          return false;
        }
        pads := pads - {pad};
      }
      return true;
    }
  }
}
