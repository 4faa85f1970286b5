/**
 * The upload area: a drop zone and a hidden file picker. A file passes when
 * its MIME type is exactly `application/pdf` and it is at most 10 MiB; a
 * passing file is shown by name and handed to the page, a failing one sets
 * an error message and is not handed on.
 */
module Uploader {
  import opened Common

  /** The part of a browser `File` the checks look at. */
  datatype File = File(name: string, mime: string, size: nat)

  /** What the zone shows: the drag highlight, the accepted file's name and
      the error message. */
  datatype Zone = Zone(dragging: bool, fileName: Option<string>, error: Option<string>)

  /** The zone after an event, and the file handed to the page, if any. */
  datatype Outcome = Outcome(zone: Zone, uploaded: Option<File>)

  const PdfType: string := "application/pdf"
  const MaxBytes: nat := 10 * 1024 * 1024

  const NoFileMessage: string := "No file selected"
  const NotPdfMessage: string := "Please upload a PDF file"
  const TooLargeMessage: string := "File size must be less than 10MB"

  /** `validateFile`: the verdict and the error it leaves. */
  function Validate(z: Zone, f: Option<File>): (r: (bool, Zone))
    ensures r.0 <==> f.Some? && f.value.mime == PdfType && f.value.size <= MaxBytes
    ensures r.0 ==> r.1.error.None?
    ensures !r.0 ==> r.1.error.Some?
    ensures r.1.dragging == z.dragging && r.1.fileName == z.fileName
  {
    if f.None? then (false, z.(error := Some(NoFileMessage)))
    else if f.value.mime != PdfType then (false, z.(error := Some(NotPdfMessage)))
    else if f.value.size > MaxBytes then (false, z.(error := Some(TooLargeMessage)))
    else (true, z.(error := None))
  }

  /** Accept a file that passed: show its name and hand it on. */
  function Accept(z: Zone, f: File): Outcome
  {
    Outcome(z.(fileName := Some(f.name)), Some(f))
  }

  /** `handleDrop`: the highlight goes off; only the first dropped file is
      checked. */
  function OnDrop(z: Zone, files: seq<File>): (r: Outcome)
    ensures !r.zone.dragging
    ensures r.uploaded.Some? ==> files != [] && r.uploaded.value == files[0]
  {
    var z1 := z.(dragging := false);
    if files == [] then Outcome(z1, None)
    else
      var v := Validate(z1, Some(files[0]));
      if v.0 then Accept(v.1, files[0]) else Outcome(v.1, None)
  }

  /** `handleFileChange`: the first picked file, if any, is checked; with
      none, nothing happens. */
  function OnFileChange(z: Zone, files: seq<File>): (r: Outcome)
    ensures r.zone.dragging == z.dragging
    ensures files == [] ==> r == Outcome(z, None)
  {
    if files == [] then Outcome(z, None)
    else
      var v := Validate(z, Some(files[0]));
      if v.0 then Accept(v.1, files[0]) else Outcome(v.1, None)
  }

  /** The events the zone reacts to. */
  datatype Event =
    | DragEnter
    | DragOver
    | DragLeave
    | Drop(dropped: seq<File>)
    | Picked(picked: seq<File>)

  /** One event. A file is handed on only by a drop or a pick, only when it
      is the first of its list and passes the checks, and it is then shown
      by name with no error; a rejected first file leaves an error. */
  function Apply(z: Zone, e: Event): (r: Outcome)
    ensures r.uploaded.Some? ==>
      && (e.Drop? || e.Picked?)
      && (e.Drop? ==> e.dropped != [] && r.uploaded.value == e.dropped[0])
      && (e.Picked? ==> e.picked != [] && r.uploaded.value == e.picked[0])
      && r.uploaded.value.mime == PdfType && r.uploaded.value.size <= MaxBytes
      && r.zone.fileName == Some(r.uploaded.value.name) && r.zone.error.None?
    ensures e.Drop? && e.dropped != [] ==>
      (r.uploaded.Some? <==> e.dropped[0].mime == PdfType && e.dropped[0].size <= MaxBytes)
    ensures e.Picked? && e.picked != [] ==>
      (r.uploaded.Some? <==> e.picked[0].mime == PdfType && e.picked[0].size <= MaxBytes)
    ensures (e.Drop? || e.Picked?) && r.uploaded.None? && r.zone != z.(dragging := r.zone.dragging) ==>
      r.zone.error.Some?
  {
    match e
    case DragEnter => Outcome(z.(dragging := true), None)
    case DragOver => if !z.dragging then Outcome(z.(dragging := true), None) else Outcome(z, None)
    case DragLeave => Outcome(z.(dragging := false), None)
    case Drop(files) => OnDrop(z, files)
    case Picked(files) => OnFileChange(z, files)
  }

  /** The drag highlight after any event: on after entering or hovering,
      off after leaving or dropping, untouched by the picker. Drag events
      hand nothing on and leave the name and the error alone. */
  lemma DragFlag(z: Zone, e: Event)
    ensures Apply(z, e).zone.dragging <==> e.DragEnter? || e.DragOver? || (e.Picked? && z.dragging)
    ensures e.DragEnter? || e.DragOver? || e.DragLeave? ==>
      && Apply(z, e).uploaded.None?
      && Apply(z, e).zone.fileName == z.fileName && Apply(z, e).zone.error == z.error
  {
  }

  /** The zone after a sequence of events, and every file handed on, in
      order. */
  datatype Outcomes = Outcomes(zone: Zone, uploaded: seq<File>)

  function Replay(z: Zone, es: seq<Event>): Outcomes
    decreases |es|
  {
    if es == [] then Outcomes(z, [])
    else
      var first := Apply(z, es[0]);
      var rest := Replay(first.zone, es[1..]);
      Outcomes(rest.zone, (if first.uploaded.Some? then [first.uploaded.value] else []) + rest.uploaded)
  }

  /** A file is acceptable: a PDF by its declared type, and at most 10 MiB. */
  predicate Acceptable(f: File)
  {
    f.mime == PdfType && f.size <= MaxBytes
  }

  /** Which message a rejected file gets: no file at all is "No file
      selected"; the type is checked first, so a
      large non-PDF is told it is not a PDF; a PDF of exactly 10 MiB passes. */
  lemma RejectionMessages(z: Zone, f: File)
    ensures Validate(z, None) == (false, z.(error := Some("No file selected")))
    ensures f.mime != "application/pdf" ==>
      Validate(z, Some(f)) == (false, z.(error := Some("Please upload a PDF file")))
    ensures f.mime == "application/pdf" && f.size > 10485760 ==>
      Validate(z, Some(f)) == (false, z.(error := Some("File size must be less than 10MB")))
    ensures f.mime == "application/pdf" && f.size == 10485760 ==> Validate(z, Some(f)).0
  {
  }

  /** Dropping and picking agree: a non-empty selection is handed on exactly
      when its first file is acceptable, and then that file's name is shown
      and the error cleared; a rejected selection keeps the name shown
      before. */
  lemma SelectionIff(z: Zone, files: seq<File>, dropped: bool)
    requires files != []
    ensures var r := if dropped then OnDrop(z, files) else OnFileChange(z, files);
      && (r.uploaded.Some? <==> Acceptable(files[0]))
      && (r.uploaded.Some? ==> r.uploaded == Some(files[0]) && r.zone.fileName == Some(files[0].name) && r.zone.error.None?)
      && (r.uploaded.None? ==> r.zone.fileName == z.fileName && r.zone.error.Some?)
  {
  }

  /** The files after the first are never looked at. */
  lemma OnlyFirstFileCounts(z: Zone, f: File, rest1: seq<File>, rest2: seq<File>)
    ensures OnDrop(z, [f] + rest1) == OnDrop(z, [f] + rest2)
    ensures OnFileChange(z, [f] + rest1) == OnFileChange(z, [f] + rest2)
  {
    assert ([f] + rest1)[0] == f && ([f] + rest2)[0] == f;
  }

  /** No sequence of user actions shows "No file selected": both handlers
      check for a file before validating, so that branch is unreachable;
      and every file handed on is acceptable. */
  lemma {:induction false} NoFileMessageUnreachable(z: Zone, es: seq<Event>)
    requires z.error != Some("No file selected")
    ensures var r := Replay(z, es);
      && r.zone.error != Some("No file selected")
      && forall k :: 0 <= k < |r.uploaded| ==> Acceptable(r.uploaded[k])
    decreases |es|
  {
    if es != [] {
      var first := Apply(z, es[0]);
      assert first.zone.error != Some(NoFileMessage);
      assert first.uploaded.Some? ==> Acceptable(first.uploaded.value);
      NoFileMessageUnreachable(first.zone, es[1..]);
    }
  }
}
