/** Notepad frames and documents: last-writer-wins by revision, writer, timestamp and text. */
module NoteProtocol {
  import opened Prelude
  import opened TextOrder

  datatype NoteFrameType = Hello | Update | Clear | Ack | Ping | Bye

  datatype NoteFrame = NoteFrame(kind: NoteFrameType, revision: nat, timestamp: nat, writer: string,
                                 pad: string, title: string, text: string)
  {
    predicate IsEdit() {
      kind.Update? || kind.Clear?
    }
  }

  datatype NoteDocument = NoteDocument(revision: nat, timestamp: nat, writer: string,
                                       pad: string, title: string, text: string)

  function NormalizedPad(pad: string): (id: string)
    ensures id != ""
  {
    if pad == "" then "main" else pad
  }

  function MakeUpdate(pad: string, revision: nat, text: string, title: string, writer: string, now: nat): NoteFrame {
    NoteFrame(Update, revision, now, writer, NormalizedPad(pad), title, text)
  }

  function MakeClear(pad: string, revision: nat, title: string, writer: string, now: nat): NoteFrame {
    MakeUpdate(pad, revision, "", title, writer, now).(kind := Clear)
  }

  function MakeAck(pad: string, revision: nat, now: nat): NoteFrame {
    NoteFrame(Ack, revision, now, "", NormalizedPad(pad), "", "")
  }

  function IncomingText(frame: NoteFrame): string {
    if frame.kind.Clear? then "" else frame.text
  }

  /** std::tie(writer_id, timestamp_ms, text) compared with <=. */
  predicate TieLeq(writer: string, timestamp: nat, text: string, writer': string, timestamp': nat, text': string) {
    if writer != writer' then TextLeq(writer, writer')
    else if timestamp != timestamp' then timestamp <= timestamp'
    else TextLeq(text, text')
  }

  /** apply_note_update: the document afterwards, and whether the frame was applied. */
  function ApplyNoteUpdate(document: NoteDocument, frame: NoteFrame): (NoteDocument, bool) {
    if !frame.IsEdit() then (document, false)
    else if frame.revision < document.revision then (document, false)
    else
      var text := IncomingText(frame);
      if frame.revision == document.revision
         && TieLeq(frame.writer, frame.timestamp, text, document.writer, document.timestamp, document.text)
      then (document, false)
      else (NoteDocument(frame.revision, frame.timestamp, frame.writer, NormalizedPad(frame.pad),
                         if frame.title != "" then frame.title else document.title, text), true)
  }

  // ---------------------------------------------------------------- the edit order

  /** What decides between two versions of a pad. */
  datatype Stamp = Stamp(revision: nat, writer: string, timestamp: nat, text: string)

  const INITIAL_STAMP := Stamp(0, "", 0, "")

  function DocumentStamp(document: NoteDocument): Stamp {
    Stamp(document.revision, document.writer, document.timestamp, document.text)
  }

  function EditStamp(frame: NoteFrame): Stamp {
    Stamp(frame.revision, frame.writer, frame.timestamp, IncomingText(frame))
  }

  predicate StampLeq(a: Stamp, b: Stamp) {
    if a.revision != b.revision then a.revision < b.revision
    else TieLeq(a.writer, a.timestamp, a.text, b.writer, b.timestamp, b.text)
  }

  function StampMax(a: Stamp, b: Stamp): Stamp {
    if StampLeq(a, b) then b else a
  }

  lemma StampTotal(a: Stamp, b: Stamp)
    ensures StampLeq(a, b) || StampLeq(b, a)
    ensures StampLeq(a, a)
  {
    TextLeqTotal(a.writer, b.writer);
    TextLeqTotal(a.text, b.text);
  }

  lemma StampAntisymmetric(a: Stamp, b: Stamp)
    requires StampLeq(a, b) && StampLeq(b, a)
    ensures a == b
  {
    if a.writer != b.writer {
      TextLeqAntisymmetric(a.writer, b.writer);
    } else if a.timestamp == b.timestamp {
      TextLeqAntisymmetric(a.text, b.text);
    }
  }

  lemma StampTransitive(a: Stamp, b: Stamp, c: Stamp)
    requires StampLeq(a, b) && StampLeq(b, c)
    ensures StampLeq(a, c)
  {
    if a.revision == b.revision == c.revision {
      if a.writer != b.writer && b.writer != c.writer {
        TextLeqTransitive(a.writer, b.writer, c.writer);
        if a.writer == c.writer {
          TextLeqAntisymmetric(a.writer, b.writer);
        }
      } else if a.writer == b.writer == c.writer && a.timestamp == b.timestamp == c.timestamp {
        TextLeqTransitive(a.text, b.text, c.text);
      }
    }
  }

  /**
   Applying an edit takes the maximum in the edit order, and reports a change exactly when the
   edit is strictly above the document.
   */
  lemma ApplyTakesMaximum(document: NoteDocument, frame: NoteFrame)
    requires frame.IsEdit()
    ensures var (after, applied) := ApplyNoteUpdate(document, frame);
      && DocumentStamp(after) == StampMax(EditStamp(frame), DocumentStamp(document))
      && (applied <==> !StampLeq(EditStamp(frame), DocumentStamp(document)))
      && (!applied ==> after == document)
      && (applied && frame.kind.Clear? ==> after.text == "")
      && (applied && frame.kind.Update? ==> after.text == frame.text)
      && (applied ==> after.pad == NormalizedPad(frame.pad)
                      && (frame.title != "" ==> after.title == frame.title)
                      && (frame.title == "" ==> after.title == document.title))
  {
  }

  /** Two replicas that see the same two edits in opposite orders end with the same version. */
  lemma ApplyOrderIrrelevant(document: NoteDocument, f: NoteFrame, g: NoteFrame)
    requires f.IsEdit() && g.IsEdit()
    ensures DocumentStamp(ApplyNoteUpdate(ApplyNoteUpdate(document, f).0, g).0)
         == DocumentStamp(ApplyNoteUpdate(ApplyNoteUpdate(document, g).0, f).0)
  {
    var d, a, b := DocumentStamp(document), EditStamp(f), EditStamp(g);
    ApplyTakesMaximum(document, f);
    ApplyTakesMaximum(document, g);
    ApplyTakesMaximum(ApplyNoteUpdate(document, f).0, g);
    ApplyTakesMaximum(ApplyNoteUpdate(document, g).0, f);
    MaxUpper(a, d);
    MaxUpper(b, d);
    MaxUpper(b, StampMax(a, d));
    MaxUpper(a, StampMax(b, d));
    var x, y := StampMax(b, StampMax(a, d)), StampMax(a, StampMax(b, d));
    StampTransitive(a, StampMax(a, d), x);
    StampTransitive(d, StampMax(a, d), x);
    StampTransitive(b, StampMax(b, d), y);
    StampTransitive(d, StampMax(b, d), y);
    StampAntisymmetric(x, y);
  }

  lemma MaxUpper(a: Stamp, b: Stamp)
    ensures StampLeq(a, StampMax(a, b)) && StampLeq(b, StampMax(a, b))
  {
    StampTotal(a, b);
    StampTotal(a, a);
    StampTotal(b, b);
  }
}
