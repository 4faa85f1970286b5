/**
 * The text-to-speech panel: its Read Aloud / Pause button (`handlePlayText`),
 * the reset reported by the player (`handleReset`), the reaction to new text,
 * the per-chunk request (`processChunk`) and the progress bar.
 *
 * As for the page reader, a generation run is the sequencer applied to the
 * outcomes of its chunks (without the pause between chunks): `BeginRun` is
 * its synchronous start, `Deliver` one clip arriving, and `EndRun` the whole
 * run's effect once finished.
 *
 * The panel also has a cleanup effect keyed on its list of handles: whenever
 * the list is replaced, every handle of the list it replaces is released,
 * even those the new list still holds. So each clip appended releases all
 * the clips already queued, and dropping the list releases it a second
 * time.
 */
module TtsSession {
  import opened Common
  import opened Text
  import TtsChunker
  import Sequencer
  import SpeechClient

  datatype Panel = Panel(
    text: string,                // the text handed to the panel
    audio: seq<string>,          // the handles passed to the player
    revoked: seq<string>,        // every handle released so far, in order
    processing: bool,            // the processing state shown
    generating: bool,            // the "is generating" reference
    playing: bool,
    error: Option<string>,
    proceed: bool,               // the cancel flag: false means "stop"
    current: nat,
    total: nat,
    voice: SpeechClient.Voice,
    temperature: real,
    speed: real)

  /** A click: the panel after it and the chunks of the run it started. */
  datatype Click = Click(next: Panel, run: Option<seq<string>>)

  const Placeholder: string := "something was wrong with text extraction"
  const NoTextMessage: string := "No text available to convert to speech"
  const EmptyChunkMessage: string := "Empty text chunk"

  /** The panel as it starts. */
  function Initial(text: string): (p: Panel)
    ensures p.audio == [] && !p.processing && !p.generating && !p.playing && p.proceed
    ensures p.voice == SpeechClient.DefaultVoice()
  {
    Panel(text, [], [], false, false, false, None, true, 0, 0, SpeechClient.DefaultVoice(), 0.5, 1.0)
  }

  /** `text || placeholder`: only the empty string is replaced; a blank text
      is read as it is. */
  function ReadText(text: string): (t: string)
    ensures t != []
    ensures text != [] ==> t == text
  {
    if text == [] then Placeholder else text
  }

  /** `handlePlayText`: a click starts a run exactly when the panel is idle
      (not playing, no audio, neither processing nor generating), because
      the text read is never empty and so always has chunks. */
  function PlayText(p: Panel): (c: Click)
    ensures c.run.Some? <==> !p.playing && p.audio == [] && !p.processing && !p.generating
    ensures c.run.Some? ==> c.run.value != [] && c.next.processing && c.next.playing
  {
    if p.playing then Click(p.(playing := false, generating := false, proceed := false), None)
    else if p.audio != [] then Click(p.(playing := true), None)
    else if p.processing || p.generating then Click(p, None)
    else
      var started := p.(revoked := p.revoked + p.audio, audio := [], processing := true,
                        error := None, generating := true);
      var chunks := TtsChunker.SplitIntoChunks(ReadText(p.text), TtsChunker.PanelChunkLength);
      if chunks == [] then
        Click(started.(error := Some(NoTextMessage), generating := false, processing := false), None)
      else Click(started.(total := |chunks|, playing := true), Some(chunks))
  }

  /** `handleReset`: release and drop every handle, zero the counters, stop
      and cancel; the "is generating" reference is left alone. Each handle
      is released twice: once by the handler and once more by the cleanup
      effect when the list is dropped. */
  function Reset(p: Panel): (r: Panel)
    ensures r.audio == [] && r.revoked == p.revoked + p.audio + p.audio
    ensures r.current == 0 && r.total == 0 && !r.processing && !r.playing && !r.proceed
    ensures r.generating == p.generating && r.text == p.text
  {
    p.(revoked := p.revoked + p.audio + p.audio, audio := [], current := 0, total := 0,
       processing := false, playing := false, proceed := false)
  }

  /** The effect keyed on the text. React runs it only when the text
      differs from the one it last saw, so the same text changes nothing.
      With a new text and audio present, it releases and drops the audio
      (the cleanup effect releases it a second time) and zeroes the
      counters; a run under way is not cancelled. */
  function TextChanged(p: Panel, text: string): (r: Panel)
    ensures r.text == text
    ensures text == p.text ==> r == p
    ensures text != p.text ==> r.audio == [] && r.revoked == p.revoked + p.audio + p.audio
    ensures r.proceed == p.proceed && r.generating == p.generating && r.playing == p.playing
    ensures text != p.text && p.audio == [] ==> r == p.(text := text)
    ensures text != p.text && p.audio != [] ==> r.current == 0 && r.total == 0 && !r.processing
  {
    if text == p.text then p
    else if p.audio != [] then
      p.(text := text, revoked := p.revoked + p.audio + p.audio, audio := [], current := 0, total := 0,
         processing := false)
    else
      assert p.revoked + p.audio + p.audio == p.revoked;
      p.(text := text)
  }

  /** `processChunk`: a chunk that trims to nothing is rejected without a
      request; any other is sent, trimmed, with the selected voice and
      settings. */
  function ProcessChunk(p: Panel, c: SpeechClient.Config, chunk: string,
                        net: SpeechClient.Network, handle: string): (call: SpeechClient.Call)
    ensures Trim(chunk) == [] ==> call == SpeechClient.Call(None, Err(JsError("Error", "Empty text chunk")))
    ensures Trim(chunk) != [] ==>
      && call.sent.Some?
      && call.sent.value.body.text == Trim(chunk)
      && call.sent.value.body.voice == p.voice.value
      && call.sent.value.body.temperature == p.temperature
      && call.sent.value.body.speed == p.speed
    ensures call.result.Ok? ==> call.result.value == handle
  {
    var t := Trim(chunk);
    if t == [] then SpeechClient.Call(None, Err(PlainError(EmptyChunkMessage)))
    else SpeechClient.GenerateSpeech(c, t, p.voice.value, Some(p.temperature), Some(p.speed), net, handle)
  }

  /** The synchronous start of `processChunksSequentially`: the cancel flag
      reads "go" again, and nothing else changes. */
  function BeginRun(p: Panel): (r: Panel)
    ensures r.proceed && r.(proceed := p.proceed) == p
  {
    p.(proceed := true)
  }

  /** One clip arriving while the flag reads "go": chunk 0's handle starts a
      new list and a later one is appended; the cleanup effect releases the
      list being replaced; the counter shows the chunk reached. */
  function Deliver(p: Panel, d: Sequencer.Delivery): Panel
  {
    p.(audio := if d.index == 0 then [d.handle] else p.audio + [d.handle],
       revoked := p.revoked + p.audio,
       current := d.index + 1)
  }

  /** The clips of a run arriving one after another. */
  function DeliverAll(p: Panel, ds: seq<Sequencer.Delivery>): Panel
    decreases |ds|
  {
    if ds == [] then p else DeliverAll(Deliver(p, ds[0]), ds[1..])
  }

  /** The handles the cleanup effect releases while a list grows from `base`
      by the handles `hs`, one at a time: before each append, the whole list
      as it stood. */
  function Released(base: seq<string>, hs: seq<string>): seq<string>
    decreases |hs|
  {
    if hs == [] then [] else base + Released(base + [hs[0]], hs[1..])
  }

  /** Growing a list releases exactly the handles of the grown list except
      the newest: every handle that is still queued behind the newest one
      has already been released. */
  lemma {:induction false} ReleasedExactly(base: seq<string>, hs: seq<string>)
    requires hs != []
    ensures forall x :: x in Released(base, hs) <==> x in (base + hs)[..|base| + |hs| - 1]
    decreases |hs|
  {
    var whole := base + hs;
    if |hs| == 1 {
      assert Released(base + [hs[0]], hs[1..]) == [];
      assert whole[..|base|] == base;
    } else {
      ReleasedExactly(base + [hs[0]], hs[1..]);
      assert (base + [hs[0]]) + hs[1..] == whole;
      var pre := whole[..|base| + |hs| - 1];
      assert pre[..|base|] == base;
      forall x | x in base
        ensures x in pre
      {
        var i :| 0 <= i < |base| && base[i] == x;
        assert pre[i] == x;
      }
    }
  }

  /** What a finished run leaves: its clips delivered in order, then the
      revoked clip released and, when the run reached its end, both flags
      cleared. */
  function Finish(p: Panel, r: Sequencer.Run): Panel
  {
    p.(revoked := p.revoked + Sequencer.Handles(r.revoked),
       processing := if r.cleared then false else p.processing,
       generating := if r.cleared then false else p.generating)
  }

  /** The effect of a whole run on a panel with no audio, applied once the
      run has finished. The list becomes the delivered handles in chunk
      order, the counter shows the chunk last reached, the list cleanup
      releases every delivered handle but the newest, and both flags clear
      exactly when the run reached its end. */
  function EndRun(p: Panel, r: Sequencer.Run): (e: Panel)
    ensures p.audio == [] && Sequencer.Ascending(r.delivered) ==>
      && e.audio == Sequencer.Handles(r.delivered)
      && e.revoked == p.revoked + Released([], Sequencer.Handles(r.delivered)) + Sequencer.Handles(r.revoked)
      && e.current == (if r.delivered == [] then p.current else Sequencer.Reached(r.delivered))
    ensures e.processing <==> p.processing && !r.cleared
    ensures e.generating <==> p.generating && !r.cleared
    ensures e.playing == p.playing && e.text == p.text && e.total == p.total && e.proceed == p.proceed
  {
    DeliverAllFrame(p, r.delivered);
    FreshListGrows(p, r.delivered);
    Finish(DeliverAll(p, r.delivered), r)
  }

  lemma FreshListGrows(p: Panel, ds: seq<Sequencer.Delivery>)
    ensures p.audio == [] && Sequencer.Ascending(ds) ==>
      && DeliverAll(p, ds).audio == Sequencer.Handles(ds)
      && DeliverAll(p, ds).revoked == p.revoked + Released([], Sequencer.Handles(ds))
      && DeliverAll(p, ds).current == (if ds == [] then p.current else Sequencer.Reached(ds))
  {
    if p.audio == [] && Sequencer.Ascending(ds) {
      DeliverAllGrows(p, ds);
      assert [] + Sequencer.Handles(ds) == Sequencer.Handles(ds);
    }
  }

  /** Deliveries touch only the list, the released handles and the counter. */
  lemma {:induction false} DeliverAllFrame(p: Panel, ds: seq<Sequencer.Delivery>)
    ensures var q := DeliverAll(p, ds);
      q == p.(audio := q.audio, revoked := q.revoked, current := q.current)
    ensures ds != [] ==> DeliverAll(p, ds).audio != []
    decreases |ds|
  {
    if ds != [] {
      DeliverAllFrame(Deliver(p, ds[0]), ds[1..]);
    }
  }

  /** Deliveries in ascending chunk order, where only chunk 0 may start a
      list and only when it is empty, append their handles in order; the
      cleanup releases the list as it stood before each append. */
  lemma DeliverAllGrows(p: Panel, ds: seq<Sequencer.Delivery>)
    requires Sequencer.Ascending(ds)
    requires ds != [] && ds[0].index == 0 ==> p.audio == []
    ensures var q := DeliverAll(p, ds);
      && q.audio == p.audio + Sequencer.Handles(ds)
      && q.revoked == p.revoked + Released(p.audio, Sequencer.Handles(ds))
      && q.current == (if ds == [] then p.current else Sequencer.Reached(ds))
  {
    GrowsList(p, ds);
    GrowsCounter(p, ds);
  }

  lemma {:induction false} GrowsList(p: Panel, ds: seq<Sequencer.Delivery>)
    requires Sequencer.Ascending(ds)
    requires ds != [] && ds[0].index == 0 ==> p.audio == []
    ensures DeliverAll(p, ds).audio == p.audio + Sequencer.Handles(ds)
    ensures DeliverAll(p, ds).revoked == p.revoked + Released(p.audio, Sequencer.Handles(ds))
    decreases |ds|
  {
    if ds == [] {
      assert Sequencer.Handles(ds) == [];
    } else {
      var d, rest := ds[0], ds[1..];
      var q1 := Deliver(p, d);
      assert q1.audio == p.audio + [d.handle] && q1.revoked == p.revoked + p.audio;
      assert Sequencer.Ascending(rest) && (rest != [] && rest[0].index == 0 ==> q1.audio == []) by {
        Sequencer.AscendingSlice(ds, 1, |ds|);
        if rest != [] {
          assert rest[0] == ds[1];
        }
      }
      GrowsList(q1, rest);
      Sequencer.HandlesCons(ds);
      ReleasedStep(p.audio, d.handle, Sequencer.Handles(rest));
      AppendAssoc(p.audio, [d.handle], Sequencer.Handles(rest));
      AppendAssoc(p.revoked, p.audio, Released(p.audio + [d.handle], Sequencer.Handles(rest)));
    }
  }

  /** Growing by one handle first releases the list as it stood. */
  lemma ReleasedStep(base: seq<string>, h: string, hr: seq<string>)
    ensures Released(base, [h] + hr) == base + Released(base + [h], hr)
  {
    assert ([h] + hr)[0] == h && ([h] + hr)[1..] == hr;
  }

  lemma {:induction false} GrowsCounter(p: Panel, ds: seq<Sequencer.Delivery>)
    ensures DeliverAll(p, ds).current == (if ds == [] then p.current else Sequencer.Reached(ds))
    decreases |ds|
  {
    if ds != [] {
      GrowsCounter(Deliver(p, ds[0]), ds[1..]);
      if |ds| > 1 {
        assert ds[1..][|ds[1..]| - 1] == ds[|ds| - 1];
      }
    }
  }

  /** The percentage on the progress bar: 0 without a total, otherwise the
      floor of the share reached; within 0..100 while the counter does not
      exceed the total. */
  function Progress(p: Panel): (r: nat)
    ensures p.total == 0 ==> r == 0
    ensures p.total > 0 ==> r * p.total <= 100 * p.current < (r + 1) * p.total
  {
    Sequencer.FloorPercent(p.current, p.total)
  }

  /** The four ways a click goes: while playing it stops, cancels and drops
      the "is generating" reference; with audio it resumes; while processing
      or generating it does nothing; otherwise it starts a run over chunks
      of at most 150 characters (151 with a comma), and since the text read
      is never empty the "no text" error cannot occur. */
  lemma PlayOutcomes(p: Panel)
    ensures var c := PlayText(p);
      && (c.run.Some? <==> !p.playing && p.audio == [] && !p.processing && !p.generating)
      && c.next.current == p.current && (c.next.audio == [] <==> p.audio == [] || c.run.Some?)
      && (p.playing ==> c.next == p.(playing := false, generating := false, proceed := false))
      && (!p.playing && p.audio != [] ==> c.next == p.(playing := true))
      && (!p.playing && p.audio == [] && (p.processing || p.generating) ==> c.next == p)
      && (c.run.Some? ==>
            && c.run.value == TtsChunker.SplitIntoChunks(ReadText(p.text), 150)
            && c.run.value != [] && TtsChunker.AllWithin(c.run.value, 150)
            && c.next.total == |c.run.value|
            && c.next.processing && c.next.generating && c.next.playing && c.next.error.None?
            && c.next.audio == [] && c.next.revoked == p.revoked)
  {
    assert p.revoked + [] == p.revoked;
  }

  /** After a reset, a panel not left generating by an earlier stop starts
      a fresh run on the next click. */
  lemma ResetReenables(p: Panel)
    requires !p.generating
    ensures PlayText(Reset(p)).run.Some?
    ensures Progress(Reset(p)) == 0
  {
    PlayOutcomes(Reset(p));
  }

  /** A run without cancellation hands every produced handle to the player
      in chunk order, clears both flags, and fills the progress bar exactly
      when the last chunk produced audio. Meanwhile the list cleanup has
      released, on each append, every handle queued before it. */
  lemma PlayWithoutCancel(p: Panel, outs: seq<Sequencer.Outcome>)
    requires CounterCleared(p) && PlayText(p).run.Some?
    requires |outs| == |PlayText(p).run.value|
    ensures var c := PlayText(p);
      var w := EndRun(BeginRun(c.next), Sequencer.Sequence(outs, Sequencer.Never, false));
      && w.audio == Sequencer.Handles(Sequencer.ProducedUpTo(outs, |outs|))
      && w.revoked == p.revoked + Released([], w.audio)
      && !w.processing && !w.generating && w.playing
      && Progress(w) <= 100
      && (Progress(w) == 100 <==> outs[|outs| - 1].Produced?)
  {
    var c := PlayText(p);
    PlayOutcomes(p);
    RunNoCancel(BeginRun(c.next), outs);
  }

  lemma RunNoCancel(w: Panel, outs: seq<Sequencer.Outcome>)
    requires outs != [] && w.audio == [] && w.current == 0 && w.total == |outs|
    ensures var e := EndRun(w, Sequencer.Sequence(outs, Sequencer.Never, false));
      && e.audio == Sequencer.Handles(Sequencer.ProducedUpTo(outs, |outs|))
      && e.revoked == w.revoked + Released([], e.audio)
      && !e.processing && !e.generating && e.playing == w.playing
      && Progress(e) <= 100
      && (Progress(e) == 100 <==> outs[|outs| - 1].Produced?)
  {
    var r := Sequencer.Sequence(outs, Sequencer.Never, false);
    Sequencer.NeverRun(outs, false);
    Sequencer.DeliveredInOrder(outs, Sequencer.Never, false);
    EndRunClean(w, r, |outs|);
  }

  /** The player is handed handles that are already released: after a run
      without cancellation, every handle in the list except the newest has
      been released, and nothing else was released by the run. */
  lemma QueuedClipsReleased(w: Panel, outs: seq<Sequencer.Outcome>)
    requires outs != [] && w.audio == [] && w.current == 0 && w.total == |outs|
    ensures var e := EndRun(w, Sequencer.Sequence(outs, Sequencer.Never, false));
      e.audio != [] ==>
        forall x :: x in e.revoked <==> x in w.revoked || x in e.audio[..|e.audio| - 1]
  {
    var e := EndRun(w, Sequencer.Sequence(outs, Sequencer.Never, false));
    RunNoCancel(w, outs);
    if e.audio != [] {
      ReleasedExactly([], e.audio);
      assert [] + e.audio == e.audio;
    }
  }

  /** Two chunks that both produce audio: the list handed to the player is
      `[a, b]`, and `a` was released when `b` was appended. */
  lemma SecondClipReleasesFirst(w: Panel, a: string, b: string)
    requires w.audio == [] && w.current == 0 && w.total == 2
    ensures var e := EndRun(w, Sequencer.Sequence([Sequencer.Produced(a), Sequencer.Produced(b)], Sequencer.Never, false));
      e.audio == [a, b] && a in e.revoked
  {
    var outs := [Sequencer.Produced(a), Sequencer.Produced(b)];
    RunNoCancel(w, outs);
    assert Sequencer.ProducedUpTo(outs, 1) == [Sequencer.Delivery(0, a)];
    assert Sequencer.ProducedUpTo(outs, 2) == [Sequencer.Delivery(0, a), Sequencer.Delivery(1, b)];
    QueuedClipsReleased(w, outs);
    var e := EndRun(w, Sequencer.Sequence(outs, Sequencer.Never, false));
    assert e.audio[..1] == [a];
  }

  /** With no audio the counter is zero: true at the start and kept by
      every handler and by the end of a run. */
  predicate CounterCleared(p: Panel)
  {
    p.audio == [] ==> p.current == 0
  }

  lemma CounterClearedKept(p: Panel, text: string, r: Sequencer.Run)
    requires CounterCleared(p)
    ensures CounterCleared(Initial(text))
    ensures CounterCleared(PlayText(p).next) && CounterCleared(Reset(p))
    ensures CounterCleared(TextChanged(p, text)) && CounterCleared(BeginRun(p))
    ensures CounterCleared(EndRun(p, r))
  {
    PlayOutcomes(p);
    DeliverAllFrame(p, r.delivered);
  }

  /** A run that revoked nothing and reached its end, applied to a panel with
      no audio and a zero counter. */
  lemma EndRunClean(w: Panel, r: Sequencer.Run, n: nat)
    requires n > 0 && w.audio == [] && w.current == 0 && w.total == n
    requires r.revoked == [] && r.cleared && Sequencer.Reached(r.delivered) <= n
    requires Sequencer.Ascending(r.delivered)
    ensures var e := EndRun(w, r);
      && e.audio == Sequencer.Handles(r.delivered)
      && e.revoked == w.revoked + Released([], e.audio)
      && !e.processing && !e.generating && e.playing == w.playing
      && e.current == Sequencer.Reached(r.delivered)
      && Progress(e) <= 100
      && (Progress(e) == 100 <==> e.current == n)
  {
    var e := EndRun(w, r);
    assert e.revoked == w.revoked + Released([], e.audio) + [];
    EndRunCounters(w, r, n);
  }

  lemma EndRunCounters(w: Panel, r: Sequencer.Run, n: nat)
    requires n > 0 && w.audio == [] && w.current == 0 && w.total == n
    requires r.cleared && Sequencer.Reached(r.delivered) <= n && Sequencer.Ascending(r.delivered)
    ensures var e := EndRun(w, r);
      && !e.processing && !e.generating && e.playing == w.playing
      && e.current == Sequencer.Reached(r.delivered)
      && Progress(e) <= 100
      && (Progress(e) == 100 <==> e.current == n)
  {
    Sequencer.FloorPercentBounds(Sequencer.Reached(r.delivered), n);
  }

  /** Stopping before the first chunk's audio arrives ends the run early,
      before the processing state is cleared: the panel keeps showing
      "processing", has no audio, and ignores the next click. */
  lemma StopBeforeFirstChunkSticks(p: Panel, outs: seq<Sequencer.Outcome>, cancel: Sequencer.Cancel)
    requires PlayText(p).run.Some?
    requires Sequencer.Stopped(cancel, 1)
    ensures var c := PlayText(p);
      var stopped := PlayText(BeginRun(c.next)).next;
      var w := EndRun(stopped, Sequencer.Sequence(outs, cancel, false));
      && Stuck(w) && PlayText(w) == Click(w, None)
  {
    PlayOutcomes(p);
    var c := PlayText(p);
    PlayOutcomes(BeginRun(c.next));
    var stopped := PlayText(BeginRun(c.next)).next;
    EarlyEndSticks(stopped, Sequencer.Sequence(outs, cancel, false));
    PlayOutcomes(EndRun(stopped, Sequencer.Sequence(outs, cancel, false)));
  }

  /** Processing shown, no audio, not playing. */
  predicate Stuck(p: Panel)
  {
    p.processing && p.audio == [] && !p.playing
  }

  lemma EarlyEndSticks(p: Panel, r: Sequencer.Run)
    requires p.processing && p.audio == [] && !p.playing
    requires r.delivered == [] && !r.cleared
    ensures Stuck(EndRun(p, r))
  {
  }

  /** What the reader can do while the panel has no audio: click the button
      or load new text. (The reset button belongs to the player, which is
      shown only when there is audio.) */
  datatype Event = Play | NewText(text: string)

  function Apply(p: Panel, e: Event): Panel
  {
    match e
    case Play => PlayText(p).next
    case NewText(t) => TextChanged(p, t)
  }

  function Replay(p: Panel, es: seq<Event>): Panel
    decreases |es|
  {
    if es == [] then p else Replay(Apply(p, es[0]), es[1..])
  }

  /** Once stuck, the panel stays stuck: clicks are ignored and new text
      does not clear the processing state, because there is no audio to
      trigger that. */
  lemma {:induction false} StuckForever(p: Panel, es: seq<Event>)
    requires Stuck(p)
    ensures Stuck(Replay(p, es))
    ensures forall k :: 0 <= k < |es| && es[k].Play? ==> PlayText(Replay(p, es[..k])).run.None?
    decreases |es|
  {
    if es != [] {
      var w := Apply(p, es[0]);
      StuckForever(w, es[1..]);
      forall k | 0 <= k < |es| && es[k].Play?
        ensures PlayText(Replay(p, es[..k])).run.None?
      {
        if k == 0 {
          assert es[..0] == [];
        } else {
          assert es[..k][1..] == es[1..][..k - 1];
          assert es[k] == es[1..][k - 1];
        }
      }
    }
  }

  /** New text during a run does not stop it. If the text arrives after
      the first `k` of the run's clips, those clips are released, the clips
      still to come form the new list, and the processing state is cleared
      by the new-text effect if some clip had arrived, and otherwise only
      when the run reaches its end. The same text again changes nothing: the
      run ends as if it had not arrived. */
  lemma TextChangeKeepsRun(p: Panel, text: string, r: Sequencer.Run, k: nat)
    requires p.audio == [] && Sequencer.Ascending(r.delivered) && k <= |r.delivered|
    ensures var ds := r.delivered;
      var w := Finish(DeliverAll(TextChanged(DeliverAll(p, ds[..k]), text), ds[k..]), r);
      && w.text == text
      && (text == p.text ==> w == EndRun(p, r))
      && (text != p.text ==>
            && w.audio == Sequencer.Handles(ds[k..])
            && (forall j :: 0 <= j < k ==> ds[j].handle in w.revoked)
            && (w.processing <==> p.processing && k == 0 && !r.cleared))
  {
    var ds := r.delivered;
    DeliverAllFrame(p, ds[..k]);
    if text == p.text {
      var mid := DeliverAll(p, ds[..k]);
      assert mid.text == p.text;
      assert TextChanged(mid, text) == mid;
      DeliverAllAppend(p, ds[..k], ds[k..]);
      assert ds[..k] + ds[k..] == ds;
      DeliverAllFrame(p, ds);
    } else {
      var changed := TextChanged(DeliverAll(p, ds[..k]), text);
      TextChangeAfter(p, text, ds, k);
      Sequencer.AscendingSlice(ds, k, |ds|);
      FreshDeliveries(changed, ds[k..]);
    }
  }

  /** Clips delivered in two batches leave the panel as one batch would. */
  lemma {:induction false} DeliverAllAppend(p: Panel, a: seq<Sequencer.Delivery>, b: seq<Sequencer.Delivery>)
    ensures DeliverAll(p, a + b) == DeliverAll(DeliverAll(p, a), b)
    decreases |a|
  {
    if a == [] {
      assert a + b == b;
    } else {
      assert (a + b)[0] == a[0] && (a + b)[1..] == a[1..] + b;
      DeliverAllAppend(Deliver(p, a[0]), a[1..], b);
    }
  }

  /** The text change itself, after the first `k` clips. */
  lemma TextChangeAfter(p: Panel, text: string, ds: seq<Sequencer.Delivery>, k: nat)
    requires p.audio == [] && Sequencer.Ascending(ds) && k <= |ds| && text != p.text
    ensures var changed := TextChanged(DeliverAll(p, ds[..k]), text);
      && changed.text == text && changed.audio == []
      && (forall j :: 0 <= j < k ==> ds[j].handle in changed.revoked)
      && (changed.processing <==> p.processing && k == 0)
  {
    Sequencer.AscendingSlice(ds, 0, k);
    FreshDeliveries(p, ds[..k]);
    var mid := DeliverAll(p, ds[..k]);
    var changed := TextChanged(mid, text);
    forall j | 0 <= j < k
      ensures ds[j].handle in changed.revoked
    {
      assert mid.audio[j] == ds[j].handle;
      assert changed.revoked[|mid.revoked| + j] == ds[j].handle;
    }
  }

  /** Ascending deliveries into an empty list: the list is their handles,
      the releases only grow, and nothing else the panel shows changes. */
  lemma FreshDeliveries(p: Panel, ds: seq<Sequencer.Delivery>)
    requires p.audio == [] && Sequencer.Ascending(ds)
    ensures var q := DeliverAll(p, ds);
      && q.audio == Sequencer.Handles(ds)
      && q.revoked == p.revoked + Released([], Sequencer.Handles(ds))
      && q.text == p.text && q.processing == p.processing
  {
    FreshListGrows(p, ds);
    DeliverAllFrame(p, ds);
  }

  /** The progress bar stays within 0..100 whenever the counter does not
      exceed the total, and is 0 with no total. */
  lemma ProgressBounds(p: Panel)
    requires p.current <= p.total || p.total == 0
    ensures Progress(p) <= 100
    ensures p.total == 0 ==> Progress(p) == 0
    ensures 0 < p.total && p.current <= p.total ==> (Progress(p) == 100 <==> p.current == p.total)
  {
    if p.current <= p.total {
      Sequencer.FloorPercentBounds(p.current, p.total);
    }
  }
}
