/**
 * The audio player: a queue of audio handles played one after another through
 * a single media element, with a play/pause button, a reset button, and
 * recovery from media errors.
 *
 * The component's state is one record: the queue copy, the index of the
 * current track, the "should be playing" and "play in flight" references, the
 * element's source and paused flag, the time the current playback started,
 * the play state shown on the button, and the number of pending timers. Every
 * handler, effect, promise settlement and timer is a pure function from the
 * record (and the clock reading it takes) to the next record and the
 * `onPlayPause` / `onReset` notices it sends the parent. An effect runs as
 * part of the transition that changed its dependency.
 *
 * The element is modelled by three effects of its methods: `play()` clears
 * `paused`, `pause()` sets it, and `load()` sets it (and makes the element
 * request the source again). Reaching the end of the media also sets it,
 * as HTML media elements do before they fire `ended`. Its events (`ended`,
 * `timeupdate`, `error`, `play`, `pause`) and the settlement of `play()`
 * promises are inputs.
 */
module Player {
  import opened Common

  /** A time update this close to the duration (in ms) counts as the end. */
  const EndToleranceMs: int := 100

  /** A playback younger than this (in ms) is never treated as finished. */
  const MinPlayedMs: int := 500

  /** A call the player makes to its parent. */
  datatype Notice = PlayPause(playing: bool) | ResetRequested

  datatype Player = Player(
    queue: seq<string>,      // the copy of the audio handles
    index: nat,              // the current track
    wantsPlay: bool,         // the "is playing" reference
    starting: bool,          // a guarded `play()` is in flight
    src: Option<string>,     // the element's source
    paused: bool,            // the element's `paused` flag
    startedAt: int,          // when the current playback started, in ms
    shown: bool,             // the internal play state of the button
    resumeTimers: nat,       // pending 50 ms resume-after-reset timers
    switchTimers: nat)       // pending 100 ms play-after-switch timers

  /** The next state together with what the parent was told, in order. */
  datatype Step = Step(next: Player, notices: seq<Notice>)

  /** Something that can happen to a mounted player. */
  datatype Event =
    | UrlsChanged(urls: seq<string>)        // the parent passed a new list
    | PlayingChanged(playing: bool)         // the parent's `isPlaying` prop changed
    | Toggle(showing: bool)                 // a click on play/pause, with the state shown
    | Reset                                 // a click on reset
    | Ended                                 // the element's `ended` event
    | TimeUpdate(currentMs: int, durationMs: Option<int>)  // `timeupdate`; no duration is NaN
    | MediaError                            // the element's `error` event
    | PlayResolved                          // the guarded `play()` promise resolved
    | PlayRejected                          // the guarded `play()` promise rejected
    | SwitchPlayRejected                    // the unguarded `play()` after a switch rejected
    | ResumeTimerFired                      // a 50 ms resume-after-reset timer
    | SwitchTimerFired                      // a 100 ms play-after-switch timer
    | ElementPlayed                         // the element's `play` event
    | ElementPaused                         // the element's `pause` event

  /** An event and the clock reading (ms) when it happens. */
  datatype Timed = At(event: Event, now: int)

  /** The track-switch effect: when the current index names a (non-empty)
      handle, pause, point the element at it and load it; if playback was
      wanted, restart the playback clock and schedule a play in 100 ms. */
  function Switch(p: Player, now: int): (r: Player)
    ensures r.queue == p.queue && r.index == p.index && r.wantsPlay == p.wantsPlay
    ensures p.index < |p.queue| && p.queue[p.index] != [] ==>
      && r.src == Some(p.queue[p.index]) && r.paused
      && r.switchTimers == (if p.wantsPlay then p.switchTimers + 1 else p.switchTimers)
    ensures !(p.index < |p.queue| && p.queue[p.index] != []) ==> r == p
  {
    if p.queue == [] || p.index >= |p.queue| || p.queue[p.index] == [] then p
    else
      var loaded := p.(paused := true, src := Some(p.queue[p.index]));
      if p.wantsPlay then loaded.(startedAt := now, switchTimers := p.switchTimers + 1)
      else loaded
  }

  /** Setting the track index: the switch effect runs only when the value
      changes. */
  function GoTo(p: Player, i: nat, now: int): (r: Player)
    ensures r.index == i && r.queue == p.queue && r.wantsPlay == p.wantsPlay
    ensures i == p.index ==> r == p
  {
    if i == p.index then p else Switch(p.(index := i), now)
  }

  /** `safePlay`: does nothing while the element plays or a guarded play is
      in flight; otherwise records the start time, wants playback, takes the
      lock and starts the element. */
  function SafePlay(p: Player, now: int): (r: Player)
    ensures r == p <==> (!p.paused || p.starting)
    ensures r != p ==> r == p.(startedAt := now, wantsPlay := true, starting := true, paused := false)
  {
    if !p.paused || p.starting then p
    else p.(startedAt := now, wantsPlay := true, starting := true, paused := false)
  }

  /** `safePause`: does nothing when already paused; otherwise stops wanting
      playback and pauses the element. */
  function SafePause(p: Player): (r: Player)
    ensures r == p <==> p.paused
    ensures r.paused && r.starting == p.starting && r.queue == p.queue && r.index == p.index
    ensures !p.paused ==> !r.wantsPlay
  {
    if p.paused then p else p.(wantsPlay := false, paused := true)
  }

  /** The queue effect: a non-empty list replaces the queue, and the element
      gets the first handle only if it has no source yet. */
  function SyncQueue(p: Player, urls: seq<string>): (r: Player)
    ensures urls == [] ==> r == p
    ensures urls != [] ==> r.queue == urls
    ensures r.index == p.index
    ensures p.src.Some? ==> r.src == p.src
    ensures p.src.None? && urls != [] ==> r.src == Some(urls[0])
  {
    if urls == [] then p
    else p.(queue := urls, src := if p.src.None? then Some(urls[0]) else p.src)
  }

  /** The shared tail of `handleEnded` and the end-of-track branch of
      `handleTimeUpdate`: move to the next track if there is one, otherwise
      stop wanting playback and tell the parent. */
  function Advance(p: Player, now: int): (s: Step)
    ensures s.next.queue == p.queue
    ensures p.index + 1 < |p.queue| ==>
      && s.notices == [] && s.next.index == p.index + 1 && s.next.wantsPlay == p.wantsPlay
      && (p.queue[p.index + 1] != [] ==> s.next.src == Some(p.queue[p.index + 1]) && s.next.paused)
    ensures p.index + 1 >= |p.queue| ==>
      && s.notices == [PlayPause(false)] && s.next.index == p.index
      && !s.next.wantsPlay && !s.next.shown && s.next.paused == p.paused
  {
    if p.index + 1 < |p.queue| then Step(GoTo(p, p.index + 1, now), [])
    else Step(p.(wantsPlay := false, shown := false), [PlayPause(false)])
  }

  /** The condition under which a time update is taken as the end of the
      track. */
  predicate NearEnd(p: Player, currentMs: int, durationMs: Option<int>, now: int)
  {
    && p.wantsPlay && !p.paused
    && currentMs > 0
    && durationMs.Some? && durationMs.value > 0
    && currentMs >= durationMs.value - EndToleranceMs
    && now - p.startedAt >= MinPlayedMs
  }

  /** `handleTimeUpdate`: nothing happens unless the update is near the end
      of a track that is wanted, playing and at least 500 ms old; then the
      player advances. */
  function OnTimeUpdate(p: Player, currentMs: int, durationMs: Option<int>, now: int): (s: Step)
    ensures !NearEnd(p, currentMs, durationMs, now) ==> s == Step(p, [])
    ensures NearEnd(p, currentMs, durationMs, now) ==> s == Advance(p, now)
  {
    if !p.wantsPlay || p.paused then Step(p, [])
    else if currentMs > 0 && durationMs.Some? && durationMs.value > 0
         && currentMs >= durationMs.value - EndToleranceMs then
      if now - p.startedAt < MinPlayedMs then Step(p, []) else Advance(p, now)
    else Step(p, [])
  }

  /** `handleError`: reload the current track if its handle is non-empty. */
  function OnError(p: Player): (r: Player)
    ensures r.index == p.index && r.queue == p.queue && r.wantsPlay == p.wantsPlay
    ensures r.starting == p.starting && r.shown == p.shown
    ensures p.index < |p.queue| && p.queue[p.index] != [] ==> r.src == Some(p.queue[p.index]) && r.paused
    ensures !(p.index < |p.queue| && p.queue[p.index] != []) ==> r == p
  {
    if p.index < |p.queue| && p.queue[p.index] != [] then
      p.(src := Some(p.queue[p.index]), paused := true)
    else p
  }

  /** The effect on the parent's `isPlaying`: the reference follows the prop,
      then the element is started or paused to match. */
  function OnPlayingChanged(p: Player, playing: bool, now: int): (r: Player)
    ensures r.wantsPlay == playing
    ensures !playing ==> r.paused
    ensures playing && !p.starting ==> !r.paused
    ensures r.queue == p.queue && r.index == p.index && r.src == p.src
  {
    var q := p.(wantsPlay := playing);
    if playing then (if q.paused then SafePlay(q, now) else q)
    else (if !q.paused then SafePause(q) else q)
  }

  /** `togglePlay`: flip the state shown, start or pause accordingly, and
      report the new state. */
  function OnToggle(p: Player, showing: bool, now: int): (s: Step)
    ensures s.notices == [PlayPause(!showing)]
    ensures s.next.shown == !showing && s.next.wantsPlay == !showing
    ensures showing ==> s.next.paused
    ensures !showing && !p.starting ==> !s.next.paused
    ensures s.next.queue == p.queue && s.next.index == p.index && s.next.src == p.src
  {
    var playing := !showing;
    var q := p.(wantsPlay := playing);
    var r := if playing then SafePlay(q, now) else SafePause(q);
    Step(r.(shown := playing), [PlayPause(playing)])
  }

  /** `resetAudio`: pause, go back to the first track, report "paused" and
      the reset, and if playback was wanted schedule a resume in 50 ms. */
  function OnReset(p: Player, now: int): (s: Step)
    ensures s.notices == [PlayPause(false), ResetRequested]
    ensures s.next.index == 0 && s.next.queue == p.queue && s.next.paused && !s.next.shown
    ensures s.next.wantsPlay == p.wantsPlay && s.next.starting == p.starting
    ensures s.next.resumeTimers == (if p.wantsPlay then p.resumeTimers + 1 else p.resumeTimers)
  {
    var q := GoTo(p.(paused := true), 0, now).(shown := false);
    var r := if p.wantsPlay then q.(resumeTimers := q.resumeTimers + 1) else q;
    Step(r, [PlayPause(false), ResetRequested])
  }

  /** The 50 ms timer set by a reset: show and report "playing" and play
      through the guard. With no timer pending nothing happens. */
  function OnResumeTimer(p: Player, now: int): (s: Step)
    ensures p.resumeTimers == 0 ==> s == Step(p, [])
    ensures p.resumeTimers > 0 ==>
      && s.notices == [PlayPause(true)]
      && s.next == SafePlay(p.(resumeTimers := p.resumeTimers - 1, shown := true), now)
      && s.next.shown && s.next.resumeTimers == p.resumeTimers - 1
      && (!p.starting ==> !s.next.paused) && (p.paused && !p.starting ==> s.next.wantsPlay && s.next.starting)
      && s.next.queue == p.queue && s.next.index == p.index && s.next.src == p.src
  {
    if p.resumeTimers == 0 then Step(p, [])
    else Step(SafePlay(p.(resumeTimers := p.resumeTimers - 1, shown := true), now), [PlayPause(true)])
  }

  /** The 100 ms timer set by a switch: play, unguarded, if playback is still
      wanted. It takes no lock and tells the parent nothing. */
  function OnSwitchTimer(p: Player): (r: Player)
    ensures p.switchTimers == 0 ==> r == p
    ensures p.switchTimers > 0 ==> r.switchTimers == p.switchTimers - 1
    ensures p.switchTimers > 0 ==> (r.paused <==> p.paused && !p.wantsPlay)
    ensures r.(switchTimers := p.switchTimers, paused := p.paused) == p
  {
    if p.switchTimers == 0 then p
    else
      var q := p.(switchTimers := p.switchTimers - 1);
      if q.wantsPlay then q.(paused := false) else q
  }

  /** One event. Only a new list changes the queue, and only the events
      with a handler that calls the parent send it anything. */
  function Apply(p: Player, e: Event, now: int): (s: Step)
    ensures !e.UrlsChanged? ==> s.next.queue == p.queue
    ensures s.notices != [] ==>
      e.Toggle? || e.Reset? || e.Ended? || e.TimeUpdate? || e.PlayRejected?
      || e.ResumeTimerFired? || e.ElementPlayed? || e.ElementPaused?
  {
    match e
    case UrlsChanged(urls) => Step(SyncQueue(p, urls), [])
    case PlayingChanged(playing) => Step(OnPlayingChanged(p, playing, now), [])
    case Toggle(showing) => OnToggle(p, showing, now)
    case Reset => OnReset(p, now)
    case Ended => Advance(p.(paused := true), now)
    case TimeUpdate(c, d) => OnTimeUpdate(p, c, d, now)
    case MediaError => Step(OnError(p), [])
    case PlayResolved => Step(p.(starting := false), [])
    case PlayRejected =>
      Step(p.(wantsPlay := false, starting := false, shown := false, paused := true), [PlayPause(false)])
    case SwitchPlayRejected => Step(p.(paused := true), [])
    case ResumeTimerFired => OnResumeTimer(p, now)
    case SwitchTimerFired => Step(OnSwitchTimer(p), [])
    case ElementPlayed => Step(p.(shown := true), [PlayPause(true)])
    case ElementPaused =>
      if !p.wantsPlay then Step(p.(shown := false), [PlayPause(false)]) else Step(p, [])
  }

  /** A sequence of events, collecting the notices. */
  function Replay(p: Player, es: seq<Timed>): Step
    decreases |es|
  {
    if es == [] then Step(p, [])
    else
      var first := Apply(p, es[0].event, es[0].now);
      var rest := Replay(first.next, es[1..]);
      Step(rest.next, first.notices + rest.notices)
  }

  /** The player as it stands after mounting with a list and a play state:
      the queue effect, the track-switch effect for track 0 and the
      play-state effect run in that order. */
  function Mount(urls: seq<string>, playing: bool, now: int): (p: Player)
    ensures p.index == 0 && p.queue == urls && p.wantsPlay == playing
    ensures urls == [] ==> p.src.None?
    ensures urls != [] ==> p.src == Some(urls[0])
    ensures playing <==> !p.paused
    ensures playing <==> p.starting
  {
    var blank := Player([], 0, false, false, None, true, 0, false, 0, 0);
    OnPlayingChanged(Switch(SyncQueue(blank, urls), now), playing, now)
  }

  /** Every handle is non-empty, as the object URLs the parents pass are. */
  predicate AllNonEmpty(urls: seq<string>)
  {
    forall k :: 0 <= k < |urls| ==> urls[k] != []
  }

  /** The element is pointed at the current track, which is in the queue. */
  predicate Tracking(p: Player)
  {
    p.index < |p.queue| && p.src == Some(p.queue[p.index])
  }

  /** The parent only ever extends the list while the player is mounted. */
  predicate Grows(p: Player, e: Event)
  {
    e.UrlsChanged? ==> e.urls == [] || (p.queue <= e.urls && AllNonEmpty(e.urls))
  }

  /** Mounting with a non-empty list points the element at its first
      handle and plays it if the parent says so. */
  lemma MountTracks(urls: seq<string>, playing: bool, now: int)
    requires urls != []
    ensures var p := Mount(urls, playing, now);
      && Tracking(p) && p.index == 0 && p.queue == urls
      && p.wantsPlay == playing && (playing <==> !p.paused) && (playing <==> p.starting)
  {
  }

  /** Whatever happens, as long as the list only grows, the index stays in
      the queue and the element stays pointed at the current track. */
  lemma TrackingPreserved(p: Player, e: Event, now: int)
    requires Tracking(p) && AllNonEmpty(p.queue) && Grows(p, e)
    ensures var q := Apply(p, e, now).next;
      Tracking(q) && AllNonEmpty(q.queue) && p.queue <= q.queue
  {
    match e
    case UrlsChanged(urls) =>
      if urls != [] {
        assert urls[p.index] == p.queue[p.index];
      }
    case Reset =>
      var q := p.(paused := true);
      if p.index != 0 {
        assert Switch(q.(index := 0), now).src == Some(p.queue[0]);
      }
    case Ended =>
      AdvanceTracks(p, now);
    case TimeUpdate(c, d) =>
      AdvanceTracks(p, now);
    case _ =>
  }

  lemma AdvanceTracks(p: Player, now: int)
    requires Tracking(p) && AllNonEmpty(p.queue)
    ensures Tracking(Advance(p, now).next) && Advance(p, now).next.queue == p.queue
  {
  }

  /** Ending a track moves to the next one when there is one; at the last
      track it stops wanting playback and tells the parent "paused"; nothing
      else about the queue or the position changes. */
  lemma EndedIff(p: Player, now: int)
    requires Tracking(p) && AllNonEmpty(p.queue)
    ensures var s := Apply(p, Ended, now);
      && s.next.queue == p.queue
      && (s.next.index == p.index + 1 <==> p.index + 1 < |p.queue|)
      && (s.next.index == p.index <==> p.index + 1 == |p.queue|)
      && s.next.paused
      && (p.index + 1 < |p.queue| ==> s.notices == [] && s.next.wantsPlay == p.wantsPlay)
      && (p.index + 1 == |p.queue| ==> s.notices == [PlayPause(false)] && !s.next.wantsPlay)
  {
  }

  /** Repeated `ended` events walk the queue one track at a time: after `k`
      of them the index is `min(i + k, n - 1)`, the element follows the
      index, and playback is still wanted (and nothing reported) exactly
      while the end of the queue has not been passed. */
  lemma {:induction false} PlaysThrough(p: Player, es: seq<Timed>)
    requires Tracking(p) && AllNonEmpty(p.queue)
    requires forall k :: 0 <= k < |es| ==> es[k].event == Ended
    ensures var s := Replay(p, es);
      && s.next.queue == p.queue && Tracking(s.next)
      && s.next.index == (if p.index + |es| < |p.queue| then p.index + |es| else |p.queue| - 1)
      && (p.index + |es| < |p.queue| ==> s.next.wantsPlay == p.wantsPlay && s.notices == [])
      && (p.index + |es| >= |p.queue| ==> !s.next.wantsPlay && PlayPause(false) in s.notices)
    decreases |es|
  {
    if es != [] {
      var first := Apply(p, es[0].event, es[0].now);
      EndedIff(p, es[0].now);
      PlaysThrough(first.next, es[1..]);
      var rest := Replay(first.next, es[1..]);
      assert Replay(p, es) == Step(rest.next, first.notices + rest.notices);
      if p.index + |es| >= |p.queue| {
        if p.index + 1 == |p.queue| {
          assert first.notices[0] == PlayPause(false);
          assert (first.notices + rest.notices)[0] == PlayPause(false);
        } else {
          assert rest.notices == (first.notices + rest.notices)[|first.notices|..];
        }
      }
    }
  }

  /** A time update advances as `ended` does when it is near the end of a
      track that has played at least 500 ms, and otherwise changes nothing
      and tells the parent nothing. The one difference: at the last track
      `ended` leaves the element paused, as the end of the media does, while
      the time update leaves it playing on. */
  lemma TimeUpdateIsEnded(p: Player, currentMs: int, durationMs: Option<int>, now: int)
    ensures NearEnd(p, currentMs, durationMs, now) ==>
      var t := Apply(p, TimeUpdate(currentMs, durationMs), now);
      var e := Apply(p, Ended, now);
      && t.notices == e.notices && t.next.(paused := true) == e.next
      && (p.index + 1 < |p.queue| && p.queue[p.index + 1] != [] ==> t == e)
      && (p.index + 1 >= |p.queue| ==> !t.next.paused)
    ensures !NearEnd(p, currentMs, durationMs, now) ==>
      Apply(p, TimeUpdate(currentMs, durationMs), now) == Step(p, [])
  {
  }

  /** A playback started by the guarded play is never cut short by a time
      update within its first 500 ms. */
  lemma FreshPlaybackNotSkipped(p: Player, start: int, currentMs: int, durationMs: Option<int>, now: int)
    requires p.paused && !p.starting && now < start + 500
    ensures var q := SafePlay(p, start);
      Apply(q, TimeUpdate(currentMs, durationMs), now) == Step(q, [])
  {
  }

  /** Recovery from a media error reloads the current track and nothing
      else: the index, the queue and the wish to play are untouched, and a
      second error in a row leaves the same state as the first (there is no
      retry limit, so a track that never loads is retried forever). */
  lemma ErrorReloads(p: Player, now: int)
    requires Tracking(p) && AllNonEmpty(p.queue)
    ensures var q := Apply(p, MediaError, now);
      && q.notices == []
      && q.next.index == p.index && q.next.queue == p.queue && q.next.wantsPlay == p.wantsPlay
      && q.next.src == Some(p.queue[p.index]) && q.next.paused
      && Apply(q.next, MediaError, now) == q
  {
  }

  /** At most one guarded play is in flight: while one is, further guarded
      plays change nothing. */
  lemma PlayLocked(p: Player, now: int, later: int)
    ensures SafePlay(SafePlay(p, now), later) == SafePlay(p, now)
  {
  }

  /** Settling the guarded play: resolving releases the lock and nothing
      else; rejecting also drops the wish to play and tells the parent
      "paused", after which a guarded play may start again. */
  lemma PlaySettles(p: Player, now: int, later: int)
    requires p.starting
    ensures var s := Apply(p, PlayResolved, now);
      s.next == p.(starting := false) && s.notices == []
    ensures var s := Apply(p, PlayRejected, now);
      && !s.next.starting && !s.next.wantsPlay && s.next.paused && !s.next.shown
      && s.next.index == p.index && s.next.queue == p.queue && s.next.src == p.src
      && s.notices == [PlayPause(false)]
      && SafePlay(s.next, later) != s.next && SafePlay(s.next, later).wantsPlay
  {
  }

  /** The list growing while a track plays keeps the current track, its
      source and the play state: the queue only learns of the new handles. */
  lemma AppendKeepsPlayback(p: Player, more: seq<string>, now: int)
    requires Tracking(p) && more != []
    ensures var q := Apply(p, UrlsChanged(p.queue + more), now).next;
      && q == p.(queue := p.queue + more)
      && Tracking(q)
  {
    assert (p.queue + more)[p.index] == p.queue[p.index];
  }

  /** Reset while playback is wanted: the player tells the parent "paused"
      and asks it to reset, and 50 ms later, whatever the parent's play state
      did meanwhile, it reports "playing" again and restarts the first track
      from the guarded play. */
  lemma ResetResumes(p: Player, t0: int, t1: int, t2: int, parentPlaying: bool)
    requires Tracking(p) && AllNonEmpty(p.queue)
    requires p.wantsPlay && !p.starting && p.resumeTimers == 0
    ensures var s := Replay(p, [At(Reset, t0), At(PlayingChanged(parentPlaying), t1), At(ResumeTimerFired, t2)]);
      && s.notices == [PlayPause(false), ResetRequested, PlayPause(true)]
      && s.next.index == 0 && Tracking(s.next)
      && s.next.wantsPlay && s.next.starting && !s.next.paused && s.next.shown
      && s.next.resumeTimers == 0
  {
    var s0 := Apply(p, Reset, t0);
    TrackingPreserved(p, Reset, t0);
    var s1 := Apply(s0.next, PlayingChanged(parentPlaying), t1);
    var s2 := Apply(s1.next, ResumeTimerFired, t2);
    assert Replay(s1.next, [At(ResumeTimerFired, t2)]) == Step(s2.next, s2.notices + []);
    assert [At(ResumeTimerFired, t2)] == [At(Reset, t0), At(PlayingChanged(parentPlaying), t1), At(ResumeTimerFired, t2)][2..];
  }

  /** When a track ends while playback is wanted, the player moves to the
      next track and schedules a play; 100 ms later that play starts the
      element exactly when the parent still wants playback, whatever it said
      in between, and the pending count is back where it was. */
  lemma SwitchTimerFollowsIntent(p: Player, t0: int, t1: int, t2: int, parentPlaying: bool)
    requires Tracking(p) && AllNonEmpty(p.queue) && p.wantsPlay && p.index + 1 < |p.queue|
    ensures var s := Replay(p, [At(Ended, t0), At(PlayingChanged(parentPlaying), t1), At(SwitchTimerFired, t2)]);
      && s.notices == [] && s.next.index == p.index + 1 && Tracking(s.next)
      && s.next.switchTimers == p.switchTimers
      && (s.next.paused <==> !parentPlaying)
  {
    var s0 := Apply(p, Ended, t0);
    assert s0.next.switchTimers == p.switchTimers + 1 && s0.next.paused;
    var s1 := Apply(s0.next, PlayingChanged(parentPlaying), t1);
    var s2 := Apply(s1.next, SwitchTimerFired, t2);
    assert Replay(s1.next, [At(SwitchTimerFired, t2)]) == Step(s2.next, s2.notices + []);
    assert [At(SwitchTimerFired, t2)] == [At(Ended, t0), At(PlayingChanged(parentPlaying), t1), At(SwitchTimerFired, t2)][2..];
  }

  /** Reset while playback is not wanted leaves the element paused on the
      first track and schedules nothing. */
  lemma ResetWhilePausedStays(p: Player, now: int)
    requires Tracking(p) && AllNonEmpty(p.queue) && !p.wantsPlay
    ensures var s := Apply(p, Reset, now);
      && s.next.index == 0 && s.next.paused && !s.next.wantsPlay
      && s.next.resumeTimers == p.resumeTimers && s.next.switchTimers == p.switchTimers
      && s.notices == [PlayPause(false), ResetRequested]
  {
  }
}
