/**
 * The page reader's controls: the Read Aloud / Pause button
 * (`togglePlayback`), page navigation (`handlePageChange`), the reset
 * reported by the player (`handleReset`), the per-chunk request
 * (`processTextChunk`) and the effect of a generation run on the panel.
 *
 * Extracting text from the document is outside the model: the page text is
 * part of the state, and what an extraction yields is an input (an
 * `Extraction`, for the click and for a page change), applied as if the
 * extraction had already completed. A generation run is the sequencer
 * applied to the outcomes of its chunks; `BeginRun` is its synchronous
 * start, `Deliver` the effect of one clip arriving while the flag reads
 * "go", and `EndRun` the effect of the whole run once it has finished, with
 * whatever clicks happened meanwhile applied in between and reflected in the
 * cancellation schedule. Unlike the text panel, the page reader releases its
 * current list only on a page change: its cleanup on a new document reads
 * the list captured when that effect last ran, which is normally the empty
 * list it started with, so a growing list releases nothing.
 */
module ViewerSession {
  import opened Common
  import opened Text
  import ViewerChunker
  import Sequencer
  import SpeechClient

  datatype Viewer = Viewer(
    page: nat,                   // the page shown, from 1
    numPages: nat,
    fileName: string,
    pageText: string,            // the text extracted from the page
    extracting: bool,
    audio: seq<string>,          // the handles passed to the player
    revoked: seq<string>,        // every handle released so far, in order
    generating: bool,            // a run is under way
    playing: bool,
    error: Option<string>,
    proceed: bool,               // the cancel flag: false means "stop"
    progress: nat,               // the percentage shown
    processed: nat,
    total: nat,
    voice: SpeechClient.Voice,
    temperature: real,
    speed: real)

  /** A click on Read Aloud / Pause: the panel after it and the chunks of the
      run it started, if any. */
  datatype Click = Click(next: Viewer, run: Option<seq<string>>)

  /** What reading a page's text back from the document gives: the
      document did not load (the page text is left alone), the page did not
      yield its text (the text was already emptied), or the page's text. */
  datatype Extraction = LoadFailed | PageFailed | Extracted(text: string)

  /** The page text once an extraction has been attempted. */
  function Yield(ext: Extraction, current: string): string
  {
    match ext
    case LoadFailed => current
    case PageFailed => []
    case Extracted(t) => t
  }

  const NoChunksMessage: string := "No text chunks generated for conversion to speech"
  const EmptyChunkMessage: string := "Cannot process empty text"

  /** The panel as it starts for a document. */
  function Initial(fileName: string): (v: Viewer)
    ensures v.page == 1 && v.audio == [] && !v.generating && !v.playing && v.proceed
    ensures v.voice == SpeechClient.DefaultVoice()
  {
    Viewer(1, 1, fileName, [], false, [], [], false, false, None, true, 0, 0, 0,
      SpeechClient.DefaultVoice(), 0.5, 1.0)
  }

  /** What is read when the page yields no text. */
  function Fallback(page: nat, numPages: nat, name: string): (t: string)
    ensures !AllSpace(t)
  {
    var t := "This is page " + Decimal(page) + " of " + Decimal(numPages)
      + " from the document \"" + name + "\". "
      + "Unfortunately, I could not extract any text content from this page. "
      + "This might be because the PDF contains images or scanned content.";
    assert t[0] == 'T' && !IsSpace('T');
    t
  }

  /** The text a run reads: the page text unless it is blank, else the
      re-extracted page text unless that is blank too or the document did
      not load, else the fallback. */
  function ReadText(v: Viewer, ext: Extraction): (t: string)
    ensures !AllSpace(t)
    ensures !AllSpace(v.pageText) ==> t == v.pageText
    ensures AllSpace(v.pageText) && ext.Extracted? && !AllSpace(ext.text) ==> t == ext.text
    ensures AllSpace(v.pageText) && !(ext.Extracted? && !AllSpace(ext.text)) ==>
      t == Fallback(v.page, v.numPages, v.fileName)
  {
    var reread := Yield(ext, v.pageText);
    if Trim(v.pageText) != [] then v.pageText
    else if Trim(reread) != [] then reread
    else Fallback(v.page, v.numPages, v.fileName)
  }

  /** `togglePlayback`: a run starts exactly when the reader is neither
      playing, nor holding audio, nor busy; it then has at least one chunk,
      and the panel shows it playing and generating. A blank page text is
      read again from the document first: it stays as it was when the
      document does not load, and is replaced by what the page yields
      otherwise. */
  function TogglePlayback(v: Viewer, ext: Extraction): (c: Click)
    ensures c.run.Some? <==> !v.playing && v.audio == [] && !v.generating && !v.extracting
    ensures c.run.Some? ==> c.run.value != [] && c.next.generating && c.next.playing
    ensures v.playing ==> !c.next.playing && !c.next.proceed
  {
    ViewerChunker.NonBlankTextHasChunks(ReadText(v, ext));
    if v.playing then Click(v.(playing := false, proceed := false), None)
    else if v.audio != [] then Click(v.(playing := true), None)
    else if v.generating || v.extracting then Click(v, None)
    else
      var started := v.(generating := true, error := None, playing := true);
      var reread := if Trim(v.pageText) == [] then started.(pageText := Yield(ext, v.pageText)) else started;
      var chunks := ViewerChunker.SplitTextIntoChunks(ReadText(v, ext));
      if chunks == [] then
        Click(reread.(error := Some(NoChunksMessage), playing := false, generating := false), None)
      else Click(reread, Some(chunks))
  }

  /** `handlePageChange`: a page outside the document changes nothing;
      otherwise the page is set, every handle is released and dropped, and
      the page text becomes what the new page yields: left alone when the
      document does not load, empty when the page fails, else its text. The
      run under way, if any, is not cancelled. */
  function PageChange(v: Viewer, newPage: int, ext: Extraction): (r: Viewer)
    ensures newPage < 1 || newPage > v.numPages ==> r == v
    ensures 1 <= newPage <= v.numPages ==>
      && r.page == newPage && r.audio == [] && r.revoked == v.revoked + v.audio
      && r.generating == v.generating && r.proceed == v.proceed && r.playing == v.playing
      && r.processed == v.processed && r.progress == v.progress
      && (ext.LoadFailed? ==> r.pageText == v.pageText && r.extracting == v.extracting)
      && (ext.PageFailed? ==> r.pageText == [] && !r.extracting)
      && (ext.Extracted? ==> r.pageText == ext.text && !r.extracting)
  {
    if newPage < 1 || newPage > v.numPages then v
    else
      v.(page := newPage, audio := [], revoked := v.revoked + v.audio,
         pageText := Yield(ext, v.pageText), extracting := ext.LoadFailed? && v.extracting)
  }

  /** `handleReset`: stop, cancel and zero the counters; the handles stay
      (nothing is released) and the generating flag is left alone. */
  function Reset(v: Viewer): (r: Viewer)
    ensures !r.playing && !r.proceed && r.progress == 0 && r.processed == 0 && r.total == 0
    ensures r.audio == v.audio && r.revoked == v.revoked && r.generating == v.generating
    ensures r.page == v.page && r.pageText == v.pageText
  {
    v.(playing := false, proceed := false, progress := 0, processed := 0, total := 0)
  }

  /** `processTextChunk`: a chunk that trims to nothing is rejected without a
      request; any other is sent, trimmed, with the selected voice and
      settings. */
  function ProcessTextChunk(v: Viewer, c: SpeechClient.Config, chunk: string,
                            net: SpeechClient.Network, handle: string): (call: SpeechClient.Call)
    ensures Trim(chunk) == [] ==> call == SpeechClient.Call(None, Err(JsError("Error", "Cannot process empty text")))
    ensures Trim(chunk) != [] ==>
      && call.sent.Some?
      && call.sent.value.body.text == Trim(chunk)
      && call.sent.value.body.voice == v.voice.value
      && call.sent.value.body.temperature == v.temperature
      && call.sent.value.body.speed == v.speed
    ensures call.result.Ok? ==> call.result.value == handle
  {
    var t := Trim(chunk);
    if t == [] then SpeechClient.Call(None, Err(PlainError(EmptyChunkMessage)))
    else SpeechClient.GenerateSpeech(c, t, v.voice.value, Some(v.temperature), Some(v.speed), net, handle)
  }

  /** The synchronous start of `processChunksSequentially`. */
  function BeginRun(v: Viewer, n: nat): (r: Viewer)
    ensures r.proceed && r.total == n && r.processed == 0 && r.progress == 0
    ensures r.audio == v.audio && r.generating == v.generating && r.playing == v.playing
  {
    v.(proceed := true, total := n, processed := 0, progress := 0)
  }

  /** One clip arriving while the flag reads "go": chunk 0's handle replaces
      the list (the old one is not released), a later one is appended, and
      the counters show the chunk reached. */
  function Deliver(v: Viewer, d: Sequencer.Delivery, n: nat): Viewer
    requires n > 0
  {
    v.(audio := if d.index == 0 then [d.handle] else v.audio + [d.handle],
       processed := d.index + 1,
       progress := Sequencer.RoundPercent(d.index + 1, n))
  }

  /** The clips of a run arriving one after another. */
  function DeliverAll(v: Viewer, ds: seq<Sequencer.Delivery>, n: nat): Viewer
    requires n > 0
    decreases |ds|
  {
    if ds == [] then v else DeliverAll(Deliver(v, ds[0], n), ds[1..], n)
  }

  /** After the last clip: the revoked clip is released and, when the run
      reached its end, the generating flag is cleared. */
  function Finish(v: Viewer, r: Sequencer.Run): Viewer
  {
    v.(revoked := v.revoked + Sequencer.Handles(r.revoked),
       generating := if r.cleared then false else v.generating)
  }

  /** What a finished run leaves: with its clips in chunk order, the first
      chunk's handle replaces the list and later handles are appended; the
      counters show the last chunk delivered; only the revoked clip is
      released; the generating flag is cleared exactly when the run reached
      its end; nothing else changes. */
  function EndRun(v: Viewer, r: Sequencer.Run, n: nat): (e: Viewer)
    requires n > 0
    ensures var ds := r.delivered;
      Sequencer.Ascending(ds) ==>
      && e.audio == (if ds != [] && ds[0].index == 0 then Sequencer.Handles(ds) else v.audio + Sequencer.Handles(ds))
      && e.processed == (if ds == [] then v.processed else Sequencer.Reached(ds))
      && e.progress == (if ds == [] then v.progress else Sequencer.RoundPercent(Sequencer.Reached(ds), n))
    ensures e.revoked == v.revoked + Sequencer.Handles(r.revoked)
    ensures e.generating <==> v.generating && !r.cleared
    ensures e == v.(audio := e.audio, revoked := e.revoked, processed := e.processed,
                    progress := e.progress, generating := e.generating)
  {
    DeliverAllFrame(v, r.delivered, n);
    AscendingGrows(v, r.delivered, n);
    Finish(DeliverAll(v, r.delivered, n), r)
  }

  lemma AscendingGrows(v: Viewer, ds: seq<Sequencer.Delivery>, n: nat)
    requires n > 0
    ensures Sequencer.Ascending(ds) ==> var q := DeliverAll(v, ds, n);
      && q.audio == (if ds != [] && ds[0].index == 0 then Sequencer.Handles(ds) else v.audio + Sequencer.Handles(ds))
      && q.processed == (if ds == [] then v.processed else Sequencer.Reached(ds))
      && q.progress == (if ds == [] then v.progress else Sequencer.RoundPercent(Sequencer.Reached(ds), n))
  {
    if Sequencer.Ascending(ds) {
      GrowsList(v, ds, n);
      GrowsCounters(v, ds, n);
    }
  }

  /** Deliveries touch only the list and the counters. */
  lemma {:induction false} DeliverAllFrame(v: Viewer, ds: seq<Sequencer.Delivery>, n: nat)
    requires n > 0
    ensures var q := DeliverAll(v, ds, n);
      q == v.(audio := q.audio, processed := q.processed, progress := q.progress)
    decreases |ds|
  {
    if ds != [] {
      DeliverAllFrame(Deliver(v, ds[0], n), ds[1..], n);
    }
  }

  /** Deliveries in ascending chunk order build the list: only chunk 0, if
      present, can come first and start a new list. */
  lemma {:induction false} GrowsList(v: Viewer, ds: seq<Sequencer.Delivery>, n: nat)
    requires n > 0 && Sequencer.Ascending(ds)
    ensures DeliverAll(v, ds, n).audio ==
      (if ds != [] && ds[0].index == 0 then Sequencer.Handles(ds) else v.audio + Sequencer.Handles(ds))
    decreases |ds|
  {
    if ds == [] {
      assert Sequencer.Handles(ds) == [];
    } else {
      var d, rest := ds[0], ds[1..];
      var q1 := Deliver(v, d, n);
      assert Sequencer.Ascending(rest) && (rest != [] ==> rest[0].index != 0) by {
        Sequencer.AscendingSlice(ds, 1, |ds|);
        if rest != [] {
          assert rest[0] == ds[1];
        }
      }
      GrowsList(q1, rest, n);
      Sequencer.HandlesCons(ds);
      AppendAssoc(v.audio, [d.handle], Sequencer.Handles(rest));
    }
  }

  lemma {:induction false} GrowsCounters(v: Viewer, ds: seq<Sequencer.Delivery>, n: nat)
    requires n > 0
    ensures DeliverAll(v, ds, n).processed == (if ds == [] then v.processed else Sequencer.Reached(ds))
    ensures DeliverAll(v, ds, n).progress ==
      (if ds == [] then v.progress else Sequencer.RoundPercent(Sequencer.Reached(ds), n))
    decreases |ds|
  {
    if ds != [] {
      GrowsCounters(Deliver(v, ds[0], n), ds[1..], n);
      if |ds| > 1 {
        assert ds[1..][|ds[1..]| - 1] == ds[|ds| - 1];
      }
    }
  }

  /** The four ways a click goes: while playing it stops and cancels; with
      audio it resumes without generating; while generating or extracting
      it does nothing; otherwise it starts a run over the chunks of a text
      that is never blank, so the "no chunks" error cannot occur. */
  lemma ToggleOutcomes(v: Viewer, ext: Extraction)
    ensures var c := TogglePlayback(v, ext);
      && (c.run.Some? <==> !v.playing && v.audio == [] && !v.generating && !v.extracting)
      && (v.playing ==> c.next == v.(playing := false, proceed := false))
      && (!v.playing && v.audio != [] ==> c.next == v.(playing := true))
      && (!v.playing && v.audio == [] && (v.generating || v.extracting) ==> c.next == v)
      && (c.run.Some? ==>
            && c.run.value == ViewerChunker.SplitTextIntoChunks(ReadText(v, ext))
            && c.run.value != [] && !AllSpace(c.run.value[0])
            && c.next.generating && c.next.playing && c.next.error.None?
            && c.next.audio == [] && c.next.revoked == v.revoked)
  {
    ViewerChunker.NonBlankTextHasChunks(ReadText(v, ext));
  }

  /** A click that starts a run reads a blank page again: the page text is
      kept when the document does not load, emptied when the page fails and
      replaced by the page's text otherwise; a page text that is not blank
      is read as it is. */
  lemma ClickRereadsBlankPage(v: Viewer, ext: Extraction)
    requires !v.playing && v.audio == [] && !v.generating && !v.extracting
    ensures var c := TogglePlayback(v, ext);
      && (!AllSpace(v.pageText) || ext.LoadFailed? ==> c.next.pageText == v.pageText)
      && (AllSpace(v.pageText) && ext.PageFailed? ==> c.next.pageText == [])
      && (AllSpace(v.pageText) && ext.Extracted? ==> c.next.pageText == ext.text)
      && (!AllSpace(v.pageText) ==> c.run == Some(ViewerChunker.SplitTextIntoChunks(v.pageText)))
  {
    var t := ReadText(v, ext);
    ViewerChunker.NonBlankTextHasChunks(t);
    assert ViewerChunker.SplitTextIntoChunks(t) != [];
    assert Trim(v.pageText) == [] <==> AllSpace(v.pageText);
  }

  /** A run without cancellation hands every produced handle to the player
      in chunk order, releases nothing, clears the generating flag, and
      shows 100% exactly when the last chunk produced audio (for fewer than
      200 chunks). */
  lemma ReadAloudWithoutCancel(v: Viewer, ext: Extraction, outs: seq<Sequencer.Outcome>)
    requires TogglePlayback(v, ext).run.Some?
    requires |outs| == |TogglePlayback(v, ext).run.value|
    ensures var c := TogglePlayback(v, ext);
      var n := |outs|;
      var w := EndRun(BeginRun(c.next, n), Sequencer.Sequence(outs, Sequencer.Never, true), n);
      && w.audio == Sequencer.Handles(Sequencer.ProducedUpTo(outs, n))
      && w.revoked == v.revoked
      && !w.generating && w.playing && w.total == n
      && w.processed <= n && w.progress <= 100
      && (outs[n - 1].Produced? ==> w.processed == n && w.progress == 100)
      && (n < 200 && w.progress == 100 ==> outs[n - 1].Produced?)
  {
    var c := TogglePlayback(v, ext);
    ToggleOutcomes(v, ext);
    EndRunNoCancel(BeginRun(c.next, |outs|), outs);
  }

  /** The effect of an uncancelled run on a panel that has no audio yet
      and zeroed counters. */
  lemma EndRunNoCancel(w: Viewer, outs: seq<Sequencer.Outcome>)
    requires outs != [] && w.audio == [] && w.processed == 0 && w.progress == 0
    ensures var n := |outs|;
      var e := EndRun(w, Sequencer.Sequence(outs, Sequencer.Never, true), n);
      && e.audio == Sequencer.Handles(Sequencer.ProducedUpTo(outs, n))
      && e.revoked == w.revoked && !e.generating && e.playing == w.playing && e.total == w.total
      && e.processed <= n && e.progress <= 100
      && (outs[n - 1].Produced? ==> e.processed == n && e.progress == 100)
      && (n < 200 && e.progress == 100 ==> outs[n - 1].Produced?)
  {
    var r := Sequencer.Sequence(outs, Sequencer.Never, true);
    Sequencer.NeverRun(outs, true);
    Sequencer.DeliveredInOrder(outs, Sequencer.Never, true);
    EndRunClean(w, r, |outs|);
  }

  /** A run that revoked nothing and reached its end, applied to a panel
      with no audio and zeroed counters. */
  lemma EndRunClean(w: Viewer, r: Sequencer.Run, n: nat)
    requires n > 0 && w.audio == [] && w.processed == 0 && w.progress == 0
    requires r.revoked == [] && r.cleared && Sequencer.Reached(r.delivered) <= n
    requires Sequencer.Ascending(r.delivered)
    ensures var e := EndRun(w, r, n);
      && e.audio == Sequencer.Handles(r.delivered)
      && e.revoked == w.revoked && !e.generating && e.playing == w.playing && e.total == w.total
      && e.processed == Sequencer.Reached(r.delivered) && e.progress <= 100
      && (e.processed == n ==> e.progress == 100)
      && (n < 200 && e.progress == 100 ==> e.processed == n)
  {
    EndRunLists(w, r, n);
    EndRunCounters(w, r, n);
  }

  lemma EndRunLists(w: Viewer, r: Sequencer.Run, n: nat)
    requires n > 0 && w.audio == [] && r.revoked == [] && Sequencer.Ascending(r.delivered)
    ensures EndRun(w, r, n).audio == Sequencer.Handles(r.delivered) && EndRun(w, r, n).revoked == w.revoked
  {
    assert w.audio + Sequencer.Handles(r.delivered) == Sequencer.Handles(r.delivered);
    assert w.revoked + Sequencer.Handles(r.revoked) == w.revoked;
  }

  lemma EndRunCounters(w: Viewer, r: Sequencer.Run, n: nat)
    requires n > 0 && w.processed == 0 && w.progress == 0
    requires r.cleared && Sequencer.Reached(r.delivered) <= n && Sequencer.Ascending(r.delivered)
    ensures var e := EndRun(w, r, n);
      && !e.generating && e.playing == w.playing && e.total == w.total
      && e.processed == Sequencer.Reached(r.delivered) && e.progress <= 100
      && (e.processed == n ==> e.progress == 100)
      && (n < 200 && e.progress == 100 ==> e.processed == n)
  {
    if r.delivered != [] {
      Sequencer.RoundPercentFull(Sequencer.Reached(r.delivered), n);
    }
  }

  /** Changing page during a run does not stop it. If the change comes
      after the first `k` of the run's clips, those clips are released with
      the old page's list, the clips still to come form the new page's list,
      the counters still reach the run's last clip, and the generating flag
      is cleared only when the run reaches its end. */
  lemma PageChangeKeepsRun(v: Viewer, newPage: int, ext: Extraction, r: Sequencer.Run, n: nat, k: nat)
    requires n > 0 && 1 <= newPage <= v.numPages
    requires v.audio == [] && Sequencer.Ascending(r.delivered) && k <= |r.delivered|
    ensures var ds := r.delivered;
      var w := Finish(DeliverAll(PageChange(DeliverAll(v, ds[..k], n), newPage, ext), ds[k..], n), r);
      && w.page == newPage
      && w.audio == Sequencer.Handles(ds[k..])
      && w.revoked == v.revoked + Sequencer.Handles(ds[..k]) + Sequencer.Handles(r.revoked)
      && (ds != [] ==> w.processed == Sequencer.Reached(ds))
      && (w.generating <==> v.generating && !r.cleared)
  {
    var ds := r.delivered;
    var moved := PageChange(DeliverAll(v, ds[..k], n), newPage, ext);
    ChangeAfter(v, newPage, ext, ds, n, k);
    Sequencer.AscendingSlice(ds, k, |ds|);
    FreshDeliveries(moved, ds[k..], n);
    if ds != [] && k < |ds| {
      assert ds[k..][|ds[k..]| - 1] == ds[|ds| - 1];
    }
  }

  /** The page change itself, after the first `k` clips. */
  lemma ChangeAfter(v: Viewer, newPage: int, ext: Extraction, ds: seq<Sequencer.Delivery>, n: nat, k: nat)
    requires n > 0 && 1 <= newPage <= v.numPages
    requires v.audio == [] && Sequencer.Ascending(ds) && k <= |ds|
    ensures var moved := PageChange(DeliverAll(v, ds[..k], n), newPage, ext);
      && moved.audio == [] && moved.page == newPage
      && moved.revoked == v.revoked + Sequencer.Handles(ds[..k]) && moved.generating == v.generating
      && (k == |ds| && ds != [] ==> moved.processed == Sequencer.Reached(ds))
  {
    Sequencer.AscendingSlice(ds, 0, k);
    FreshDeliveries(v, ds[..k], n);
    assert k == |ds| ==> ds[..k] == ds;
  }

  /** Ascending deliveries into an empty list: the list is their handles,
      the counters show the last one, and nothing else changes. */
  lemma FreshDeliveries(v: Viewer, ds: seq<Sequencer.Delivery>, n: nat)
    requires n > 0 && v.audio == [] && Sequencer.Ascending(ds)
    ensures var q := DeliverAll(v, ds, n);
      && q.audio == Sequencer.Handles(ds)
      && q.processed == (if ds == [] then v.processed else Sequencer.Reached(ds))
      && q.page == v.page && q.numPages == v.numPages && q.revoked == v.revoked && q.generating == v.generating
  {
    AscendingGrows(v, ds, n);
    DeliverAllFrame(v, ds, n);
    assert [] + Sequencer.Handles(ds) == Sequencer.Handles(ds);
  }

  /** The panel believes a run is under way but has no audio and is not
      playing. */
  predicate Stuck(v: Viewer)
  {
    v.generating && v.audio == [] && !v.playing
  }

  /** The events a reader can cause on the panel. */
  datatype Event = Toggle(ext: Extraction) | GoToPage(page: int, ext: Extraction) | ResetPressed

  function Apply(v: Viewer, e: Event): Viewer
  {
    match e
    case Toggle(x) => TogglePlayback(v, x).next
    case GoToPage(p, x) => PageChange(v, p, x)
    case ResetPressed => Reset(v)
  }

  function Replay(v: Viewer, es: seq<Event>): Viewer
    decreases |es|
  {
    if es == [] then v else Replay(Apply(v, es[0]), es[1..])
  }

  /** Stopping the reader before the first chunk's audio arrives releases
      that audio and ends the run early, before the generating flag is
      cleared. The panel is then stuck: no audio, not playing, and every
      later click does nothing. */
  lemma StopBeforeFirstChunkSticks(v: Viewer, x: Extraction, y: Extraction, outs: seq<Sequencer.Outcome>, cancel: Sequencer.Cancel)
    requires TogglePlayback(v, x).run.Some?
    requires Sequencer.Stopped(cancel, 1)
    ensures var c := TogglePlayback(v, x);
      var n := |c.run.value|;
      var stopped := TogglePlayback(BeginRun(c.next, n), y).next;
      var w := EndRun(stopped, Sequencer.Sequence(outs, cancel, true), n);
      && Stuck(w) && TogglePlayback(w, y) == Click(w, None)
  {
    ToggleOutcomes(v, x);
    var c := TogglePlayback(v, x);
    var n := |c.run.value|;
    var b := BeginRun(c.next, n);
    ToggleOutcomes(b, y);
    var stopped := TogglePlayback(b, y).next;
    EarlyEndSticks(stopped, Sequencer.Sequence(outs, cancel, true), n);
    ToggleOutcomes(EndRun(stopped, Sequencer.Sequence(outs, cancel, true), n), y);
  }

  /** A run that ended before delivering anything and before its final
      statement leaves a stopped panel without audio stuck. */
  lemma EarlyEndSticks(v: Viewer, r: Sequencer.Run, n: nat)
    requires n > 0 && v.generating && v.audio == [] && !v.playing
    requires r.delivered == [] && !r.cleared
    ensures Stuck(EndRun(v, r, n))
  {
    assert v.audio + Sequencer.Handles(r.delivered) == [];
  }

  /** Once stuck, the panel stays stuck whatever the reader does: clicks are
      ignored, page changes and resets keep the generating flag. */
  lemma {:induction false} StuckForever(v: Viewer, es: seq<Event>)
    requires Stuck(v)
    ensures Stuck(Replay(v, es))
    ensures forall k :: 0 <= k < |es| && es[k].Toggle? ==> TogglePlayback(Replay(v, es[..k]), es[k].ext).run.None?
    decreases |es|
  {
    if es != [] {
      var w := Apply(v, es[0]);
      StuckForever(w, es[1..]);
      forall k | 0 <= k < |es| && es[k].Toggle?
        ensures TogglePlayback(Replay(v, es[..k]), es[k].ext).run.None?
      {
        if k == 0 {
          assert es[..0] == [];
        } else {
          assert es[..k][1..] == es[1..][..k - 1];
          assert es[k] == es[1..][k - 1];
        }
      }
    }
  }
}
