/**
 * The playback session: the five fields the player keeps (`is_playing`,
 * `currently_playing`, `song_length`, `song_start_time`, `is_seeking`) and the
 * handlers that change them. The audio engine is abstract: the session records
 * which file it last loaded, whether it was told to play, and from which
 * offset; whether it is still busy, how many milliseconds it reports, and
 * whether loading raises are inputs. The `after` timers are explicit events:
 * each handler says whether it re-arms its own timer, and `GuardExpired` is
 * the 200 ms callback a seek schedules.
 */
module Playback {
  import opened Wrappers
  import opened Text
  import opened Paths
  import opened Store

  /** The engine as the session last drove it: the file loaded, whether it was told to play, and from which second. */
  datatype Engine = Engine(file: string, running: bool, from: real)

  /** The session fields, with times in seconds. */
  datatype SessionState = SessionState(
    playing: bool,            // is_playing
    current: Option<nat>,     // currently_playing
    length: real,             // song_length
    startTime: real,          // song_start_time: the offset of the last (re)start
    seeking: bool,            // is_seeking
    engine: Engine)

  const Idle := SessionState(false, None, 0.0, 0.0, false, Engine("", false, 0.0))

  /**
   * The states the handlers keep: a track is current exactly while playing,
   * and then the engine is running; otherwise every field is at its reset
   * value; the start offset lies within the track.
   */
  predicate Inv(s: SessionState, available: bool) {
    && 0.0 <= s.startTime <= s.length
    && (s.playing <==> s.current.Some?)
    && (s.playing ==> available && s.engine.running)
    && (!s.playing ==> s.length == 0.0 && s.startTime == 0.0 && !s.seeking && !s.engine.running)
  }

  // ---- stop_playback ----

  /** `stop_playback`: the engine is stopped if it was playing, and every field is reset. */
  function Stopped(s: SessionState, available: bool): SessionState {
    SessionState(false, None, 0.0, 0.0, false,
                 if available && s.playing then s.engine.(running := false) else s.engine)
  }

  /** Stopping leaves the same state from any state the handlers keep, whatever was playing. */
  lemma StopFromAny(s: SessionState, available: bool)
    requires Inv(s, available)
    ensures Inv(Stopped(s, available), available)
    ensures var r := Stopped(s, available);
      && !r.playing && r.current == None && r.length == 0.0 && r.startTime == 0.0 && !r.seeking
      && !r.engine.running
  {
  }

  /** Stopping twice is stopping once. */
  lemma StopIdempotent(s: SessionState, available: bool)
    ensures Stopped(Stopped(s, available), available) == Stopped(s, available)
  {
  }

  // ---- check_playback_status ----

  /** A handler's new state and whether it re-arms its own timer. */
  datatype Step = Step(state: SessionState, again: bool)

  /** `check_playback_status`: a finished track stops the session; a busy engine is polled again in 100 ms. */
  function Polled(s: SessionState, available: bool, busy: bool): Step {
    if !s.playing then Step(s, false)
    else if !busy then Step(Stopped(s, available), false)
    else Step(s, true)
  }

  /** The poll stops the session exactly when the engine has gone idle, and re-arms exactly while it plays on. */
  lemma PollStopsWhenIdle(s: SessionState, available: bool, busy: bool)
    requires Inv(s, available)
    ensures Inv(Polled(s, available, busy).state, available)
    ensures Polled(s, available, busy).again <==> s.playing && busy
    ensures s.playing && !busy ==> Polled(s, available, busy).state == Stopped(s, available)
    ensures !(s.playing && !busy) ==> Polled(s, available, busy).state == s
  {
  }

  // ---- toggle_playback ----

  datatype ToggleOutcome =
    | EngineMissing                            // pygame is not installed
    | NoSelection                              // nothing selected and nothing playing
    | StoppedPlayback                          // the toggle stopped the session
    | NotInDatabase                            // the selected id has no row
    | FileMissing                              // the row's file is not on disk
    | PlayFailed                               // loading or playing raised
    | Started(ticking: bool, polling: bool)    // the seek-bar tick (with the seek guard) and the finish poll it left armed

  /** What `toggle_playback` learns from the selection, the disk, the engine and the tag reader. */
  datatype ToggleInputs = ToggleInputs(
    selection: Option<nat>,     // the id of the first selected row
    fileExists: bool,
    loadFails: bool,            // `load`, `set_volume` or `play` raised
    probedLength: Option<real>, // `info.length`, or None where the reader is missing, fails or has no info
    busy: bool)                 // `get_busy()` at the first status check

  datatype ToggleResult = ToggleResult(state: SessionState, outcome: ToggleOutcome)

  /**
   * `toggle_playback`. Without a selection it stops a playing session; the
   * playing track toggles off; any other track first stops the session, then
   * starts from second 0 with the probed length, shows the seek bar when that
   * length is positive, and runs the first status check at once. Enabling the
   * seek bar and then `seek_slider.set(0)` runs `on_seek(0)`: the same file
   * is reloaded from second 0 and `is_seeking` stays set until the guard
   * fires. Whether that reload raises makes no difference to the state, since
   * the engine already plays that file from second 0.
   */
  function Toggled(s: SessionState, available: bool, songs: seq<Song>, root: string, inp: ToggleInputs): ToggleResult {
    if !available then ToggleResult(s, EngineMissing)
    else if inp.selection.None? then
      if s.playing then ToggleResult(Stopped(s, available), StoppedPlayback) else ToggleResult(s, NoSelection)
    else
      var id := inp.selection.value;
      if s.playing && s.current == Some(id) then ToggleResult(Stopped(s, available), StoppedPlayback)
      else
        var s1 := if s.playing then Stopped(s, available) else s;
        match FindById(songs, id)
        case None => ToggleResult(s1, NotInDatabase)
        case Some(row) =>
          if !inp.fileExists then ToggleResult(s1, FileMissing)
          else if inp.loadFails then ToggleResult(Stopped(s1, available), PlayFailed)
          else
            var len := inp.probedLength.GetOr(0.0);
            var s2 := s1.(playing := true, current := Some(id), length := len, startTime := 0.0,
                          engine := Engine(JoinPath(root, row.relativePath), true, 0.0));
            var s3 := if len > 0.0 then Sought(s2, available, songs, root, SeekInputs(0.0, false, inp.busy)).state else s2;
            var p := Polled(s3, available, inp.busy);
            ToggleResult(p.state, Started(len > 0.0, p.again))
  }

  /** A probed duration is never negative. */
  predicate LengthOk(inp: ToggleInputs) {
    inp.probedLength.Some? ==> inp.probedLength.value >= 0.0
  }

  /** The toggle keeps the session invariant. */
  lemma ToggleKeepsInv(s: SessionState, available: bool, songs: seq<Song>, root: string, inp: ToggleInputs)
    requires Inv(s, available) && LengthOk(inp)
    ensures Inv(Toggled(s, available, songs, root, inp).state, available)
  {
  }

  /** Toggling the track that is playing stops it, and nothing else happens. */
  lemma ToggleSameStops(s: SessionState, available: bool, songs: seq<Song>, root: string, inp: ToggleInputs)
    requires available && s.playing && inp.selection.Some? && s.current == inp.selection
    ensures Toggled(s, available, songs, root, inp) == ToggleResult(Stopped(s, available), StoppedPlayback)
  {
  }

  /** Selecting another track while one plays is the same as selecting it after a stop. */
  lemma ToggleStopsFirst(s: SessionState, available: bool, songs: seq<Song>, root: string, inp: ToggleInputs)
    requires Inv(s, available) && s.playing && inp.selection.Some? && s.current != inp.selection
    ensures Toggled(s, available, songs, root, inp) == Toggled(Stopped(s, available), available, songs, root, inp)
  {
  }

  /**
   * A new track that loads starts from second 0 with the probed length and
   * becomes current, seeking exactly when the seek bar was enabled; it stays
   * playing unless the first status check already finds the engine idle.
   */
  lemma ToggleStarts(s: SessionState, available: bool, songs: seq<Song>, root: string, inp: ToggleInputs)
    requires Inv(s, available) && available && inp.selection.Some? && s.current != inp.selection
    requires FindById(songs, inp.selection.value).Some? && inp.fileExists && !inp.loadFails
    ensures var r := Toggled(s, available, songs, root, inp);
      var row := FindById(songs, inp.selection.value).value;
      var len := inp.probedLength.GetOr(0.0);
      && r.outcome == Started(len > 0.0, inp.busy)
      && (inp.busy ==> r.state == SessionState(true, inp.selection, len, 0.0, len > 0.0,
                                                 Engine(JoinPath(root, row.relativePath), true, 0.0)))
      && (!inp.busy ==> !r.state.playing && r.state.current == None)
  {
  }

  /** A load or play that raises ends in the stopped state. */
  lemma ToggleFailStops(s: SessionState, available: bool, songs: seq<Song>, root: string, inp: ToggleInputs)
    requires Inv(s, available)
    requires Toggled(s, available, songs, root, inp).outcome == PlayFailed
    ensures Toggled(s, available, songs, root, inp).state == Stopped(s, available)
  {
  }

  // ---- on_seek and the 200 ms guard ----

  /** What a seek learns: the slider value (0 to 100), whether reloading raises, and `get_busy()` if it resumes. */
  datatype SeekInputs = SeekInputs(value: real, loadFails: bool, busy: bool)

  /** A seek's new state, whether it armed the guard that clears `is_seeking`, and whether it armed the finish poll. */
  datatype SeekResult = SeekResult(state: SessionState, guardArmed: bool, polling: bool)

  /** The second a slider value stands for. */
  function SeekTarget(value: real, length: real): real {
    value / 100.0 * length
  }

  /**
   * `on_seek`: nothing without a positive length or a current track; a track
   * without a row clears `is_seeking` at once; otherwise the file is reloaded
   * and played from the target, the target becomes the start offset, a
   * stopped session is marked playing again, and the guard is armed whether
   * or not the reload raised.
   */
  function Sought(s: SessionState, available: bool, songs: seq<Song>, root: string, inp: SeekInputs): SeekResult {
    if !available || s.length <= 0.0 then SeekResult(s, false, false)
    else if s.current.None? then SeekResult(s, false, false)
    else
      var s1 := s.(seeking := true);
      var position := SeekTarget(inp.value, s.length);
      match FindById(songs, s.current.value)
      case None => SeekResult(s1.(seeking := false), false, false)
      case Some(row) =>
        if inp.loadFails then SeekResult(s1, true, false)
        else
          var s2 := s1.(startTime := position, engine := Engine(JoinPath(root, row.relativePath), true, position));
          if !s2.playing then
            var p := Polled(s2.(playing := true), available, inp.busy);
            SeekResult(p.state, true, p.again)
          else SeekResult(s2, true, false)
  }

  /** `lambda: setattr(self, 'is_seeking', False)` */
  function GuardExpired(s: SessionState): SessionState {
    s.(seeking := false)
  }

  /** A seek with no positive length or no current track changes nothing and arms nothing. */
  lemma SeekNoop(s: SessionState, available: bool, songs: seq<Song>, root: string, inp: SeekInputs)
    requires !available || s.length <= 0.0 || s.current.None?
    ensures Sought(s, available, songs, root, inp) == SeekResult(s, false, false)
  {
  }

  /** A current track without a row leaves the session as it was, with `is_seeking` cleared and no guard. */
  lemma SeekLookupFails(s: SessionState, available: bool, songs: seq<Song>, root: string, inp: SeekInputs)
    requires available && s.length > 0.0 && s.current.Some? && FindById(songs, s.current.value).None?
    ensures Sought(s, available, songs, root, inp) == SeekResult(s.(seeking := false), false, false)
  {
  }

  /**
   * A seek that reloads restarts the engine at `value/100 * length`, makes that
   * the start offset, keeps the track, and leaves `is_seeking` set until the
   * guard fires. The session is already playing, so the resume branch never
   * runs and no second poll is armed.
   */
  lemma SeekReloads(s: SessionState, available: bool, songs: seq<Song>, root: string, inp: SeekInputs)
    requires Inv(s, available) && available && s.length > 0.0 && s.current.Some?
    requires FindById(songs, s.current.value).Some? && !inp.loadFails
    ensures var r := Sought(s, available, songs, root, inp);
      var row := FindById(songs, s.current.value).value;
      var target := SeekTarget(inp.value, s.length);
      r == SeekResult(s.(seeking := true, startTime := target,
                         engine := Engine(JoinPath(root, row.relativePath), true, target)), true, false)
  {
  }

  /** A seek never changes whether the session is playing, nor which track is current. */
  lemma SeekKeepsPlaying(s: SessionState, available: bool, songs: seq<Song>, root: string, inp: SeekInputs)
    requires Inv(s, available)
    ensures var r := Sought(s, available, songs, root, inp);
      r.state.playing == s.playing && r.state.current == s.current && r.state.length == s.length && !r.polling
  {
  }

  /** The target of a slider value lies within the track. */
  lemma SeekTargetWithin(value: real, length: real)
    requires 0.0 <= value <= 100.0 && length >= 0.0
    ensures 0.0 <= SeekTarget(value, length) <= length
  {
    assert value / 100.0 <= 1.0;
    assert (value / 100.0) * length <= 1.0 * length;
  }

  /** A seek from the slider's range keeps the session invariant; so does the guard firing. */
  lemma SeekKeepsInv(s: SessionState, available: bool, songs: seq<Song>, root: string, inp: SeekInputs)
    requires Inv(s, available) && 0.0 <= inp.value <= 100.0
    ensures Inv(Sought(s, available, songs, root, inp).state, available)
    ensures Inv(GuardExpired(s), available)
  {
    SeekTargetWithin(inp.value, s.length);
  }

  // ---- update_seek_bar ----

  /** What the seek bar shows: the slider percentage and the `current / total` label. */
  datatype Shown = Shown(percent: real, caption: string)

  /** One run of `update_seek_bar`: what it shows, if anything, and whether it runs again in 100 ms. */
  datatype Tick = Tick(shown: Option<Shown>, again: bool)

  /** `elapsed / 1000 + song_start_time`, clamped to the track length. */
  function Position(s: SessionState, posMs: int): real {
    var p := posMs as real / 1000.0 + s.startTime;
    if p > s.length then s.length else p
  }

  /**
   * `update_seek_bar` with `get_pos()` reporting `posMs`: nothing while
   * stopped; while seeking, or with a negative report, nothing is shown but
   * the timer re-arms; a track of unknown length shows nothing.
   */
  function SeekBar(s: SessionState, available: bool, posMs: int): Tick {
    if !s.playing || !available then Tick(None, false)
    else if s.seeking || posMs < 0 || s.length <= 0.0 then Tick(None, true)
    else
      var cur := Position(s, posMs);
      Tick(Some(Shown(cur / s.length * 100.0, FormatTime(cur) + " / " + FormatTime(s.length))), true)
  }

  /** One tick as written: what it shows, the session after the slider's `set`, and whether that armed the seek guard. */
  datatype TickResult = TickResult(state: SessionState, tick: Tick, guardArmed: bool)

  /**
   * `update_seek_bar` as written: `seek_slider.set(percentage)` on the enabled
   * slider runs the slider's command, `on_seek(percentage)`, so every tick
   * that shows the position also reloads the track from it. The engine's
   * `get_busy()` is not consulted there, since the session is playing.
   */
  function Ticked(s: SessionState, available: bool, songs: seq<Song>, root: string, posMs: int, loadFails: bool): TickResult {
    var t := SeekBar(s, available, posMs);
    if t.shown.None? then TickResult(s, t, false)
    else
      var r := Sought(s, available, songs, root, SeekInputs(t.shown.value.percent, loadFails, false));
      TickResult(r.state, t, r.guardArmed)
  }

  /** The slider percentage of a position, read back as seconds by `on_seek`, is that position. */
  lemma PercentBack(cur: real, length: real)
    requires length > 0.0
    ensures SeekTarget(cur / length * 100.0, length) == cur
  {
    assert cur / length * 100.0 / 100.0 == cur / length;
    assert cur / length * length == cur;
  }

  /**
   * As written, a tick that shows the position reloads the track from that
   * position, arms the seek guard and sets `is_seeking`, so the ticks after it
   * show nothing until the guard fires; the track, the length and the
   * playing state stay as they were.
   */
  lemma TickAsWrittenReloads(s: SessionState, available: bool, songs: seq<Song>, root: string, posMs: int, nextMs: int)
    requires Inv(s, available) && SeekBar(s, available, posMs).shown.Some?
    requires FindById(songs, s.current.value).Some?
    ensures var r := Ticked(s, available, songs, root, posMs, false);
      var row := FindById(songs, s.current.value).value;
      var cur := Position(s, posMs);
      && r.state == s.(seeking := true, startTime := cur, engine := Engine(JoinPath(root, row.relativePath), true, cur))
      && r.guardArmed
      && SeekBar(r.state, available, nextMs).shown.None?
  {
    PercentBack(Position(s, posMs), s.length);
    SeekReloads(s, available, songs, root, SeekInputs(Position(s, posMs) / s.length * 100.0, false, false));
  }

  /** The position is the elapsed time plus the start offset, never past the end, and never negative. */
  lemma PositionClamped(s: SessionState, posMs: int)
    requires 0.0 <= s.startTime <= s.length && posMs >= 0
    ensures 0.0 <= Position(s, posMs) <= s.length
    ensures Position(s, posMs) == s.length || Position(s, posMs) == posMs as real / 1000.0 + s.startTime
    ensures posMs as real / 1000.0 + s.startTime <= s.length ==> Position(s, posMs) == posMs as real / 1000.0 + s.startTime
  {
  }

  /**
   * The seek bar shows something exactly when playing, not seeking, with a
   * non-negative report and a positive length; the slider then stays within
   * 0..100 and the label is the position over the length.
   */
  lemma SeekBarShows(s: SessionState, available: bool, posMs: int)
    requires Inv(s, available)
    ensures var t := SeekBar(s, available, posMs);
      && (t.shown.Some? <==> s.playing && available && !s.seeking && posMs >= 0 && s.length > 0.0)
      && (t.again <==> s.playing && available)
    ensures var t := SeekBar(s, available, posMs);
      t.shown.Some? ==>
        && 0.0 <= t.shown.value.percent <= 100.0
        && t.shown.value.caption == FormatTime(Position(s, posMs)) + " / " + FormatTime(s.length)
  {
    if s.playing && available && !s.seeking && posMs >= 0 && s.length > 0.0 {
      PositionClamped(s, posMs);
      PercentWithin(Position(s, posMs), s.length);
    }
  }

  /** A position within a track of positive length is between 0 and 100 percent of it. */
  lemma PercentWithin(cur: real, length: real)
    requires 0.0 <= cur <= length && length > 0.0
    ensures 0.0 <= cur / length * 100.0 <= 100.0
  {
    assert cur / length <= 1.0;
  }

  // ---- format_time ----

  /** `f"{n:02d}"` for a second count below 60. */
  function Pad2(n: nat): (r: string)
    requires n < 60
    ensures |r| == 2 && IsDigits(r)
  {
    if n < 10 then ['0', Digit(n)] else [Digit(n / 10), Digit(n % 10)]
  }

  /** `m:ss` for a whole number of seconds: the minutes by floor division, then the remaining seconds as two digits. */
  function Clock(w: int): (r: string)
    ensures ':' in r
  {
    var head := IntToString(w / 60);
    assert (head + ":" + Pad2(w % 60))[|head|] == ':';
    head + ":" + Pad2(w % 60)
  }

  /**
   * `format_time`. Python's `seconds // 60` and `int(seconds % 60)` are the
   * whole seconds divided and reduced by 60 (FormatTimeFloors), so the label
   * is the clock of the whole seconds.
   */
  function FormatTime(seconds: real): (r: string)
    ensures ':' in r
  {
    Clock(seconds.Floor)
  }

  /** Python's float `//` and `%` by 60 agree with integer division of the whole seconds. */
  lemma FormatTimeFloors(seconds: real)
    ensures (seconds / 60.0).Floor == seconds.Floor / 60
    ensures (seconds - 60.0 * (seconds / 60.0).Floor as real).Floor == seconds.Floor % 60
  {
    var w := seconds.Floor;
    var q, r := w / 60, w % 60;
    assert w == 60 * q + r && 0 <= r < 60;
    assert w as real <= seconds < w as real + 1.0;
    assert 60.0 * q as real <= seconds < 60.0 * q as real + 60.0;
    assert q as real <= seconds / 60.0 < q as real + 1.0;
    assert (seconds / 60.0).Floor == q;
    assert r as real <= seconds - 60.0 * q as real < r as real + 1.0;
  }

  /** A clock reading: whole minutes and seconds. */
  datatype ClockTime = ClockTime(minutes: nat, seconds: nat)

  /** The whole seconds a clock reading stands for. */
  function TotalSeconds(c: ClockTime): nat {
    60 * c.minutes + c.seconds
  }

  /** Reads back an `m:ss` clock: the digits before and after the first colon. */
  function ParseClock(t: string): (r: Option<ClockTime>)
    ensures r.Some? ==> ':' in t
  {
    if ':' !in t then None
    else
      var i := IndexOf(t, ':');
      if IsDigits(t[..i]) && IsDigits(t[i + 1..]) then Some(ClockTime(ParseNat(t[..i]), ParseNat(t[i + 1..])))
      else None
  }

  /** Two digits read back as their number. */
  lemma ParsePad2(n: nat)
    requires n < 60
    ensures ParseNat(Pad2(n)) == n
  {
    var r := Pad2(n);
    assert r[..|r| - 1] == [r[0]];
  }

  /** A digit string has no colon. */
  lemma DigitsLackColon(s: string)
    requires IsDigits(s)
    ensures ':' !in s
  {
    forall j | 0 <= j < |s| ensures s[j] != ':' { assert '0' <= s[j] <= '9'; }
  }

  /** The first colon of `head:tail` is the one after `head`, when `head` has none. */
  lemma ColonSplit(head: string, tail: string)
    requires ':' !in head
    ensures var t := head + ":" + tail;
      ':' in t && IndexOf(t, ':') == |head| && t[..|head|] == head && t[|head| + 1..] == tail
  {
    var t := head + ":" + tail;
    assert t[..|head|] == head;
    assert t[|head|] == ':';
    IndexOfAt(t, ':', |head|);
    assert t[|head| + 1..] == tail;
  }

  /** `head:tail` with digit strings on both sides reads back as `head` minutes and `tail` seconds. */
  lemma ParseClockSplit(head: string, tail: string)
    requires IsDigits(head) && IsDigits(tail)
    ensures ParseClock(head + ":" + tail) == Some(ClockTime(ParseNat(head), ParseNat(tail)))
  {
    DigitsLackColon(head);
    ColonSplit(head, tail);
  }

  /** The clock of a non-negative whole number of seconds reads back as its minutes and seconds. */
  lemma ClockRoundTrip(w: nat)
    ensures ParseClock(Clock(w)) == Some(ClockTime(w / 60, w % 60))
  {
    ParseClockSplit(NatToString(w / 60), Pad2(w % 60));
    ParseNatToString(w / 60);
    ParsePad2(w % 60);
  }

  /**
   * Reading back a formatted non-negative time gives its whole seconds: the
   * label loses only the fraction of a second, and the seconds field stays below 60.
   */
  lemma FormatTimeRoundTrip(seconds: real)
    requires seconds >= 0.0
    ensures ParseClock(FormatTime(seconds)).Some?
    ensures var c := ParseClock(FormatTime(seconds)).value;
      TotalSeconds(c) == seconds.Floor && c.seconds < 60
  {
    ClockRoundTrip(seconds.Floor);
  }

  /** The seconds field of a formatted time is always two digits below 60, after the only colon. */
  lemma FormatTimeSeconds(seconds: real)
    ensures var t := FormatTime(seconds);
      var i := IndexOf(t, ':');
      |t| == i + 3 && '0' <= t[i + 1] <= '5' && '0' <= t[i + 2] <= '9'
  {
    var w := seconds.Floor;
    var head := IntToString(w / 60);
    if w / 60 < 0 {
      DigitsLackColon(head[1..]);
      assert head == [head[0]] + head[1..];
    } else {
      DigitsLackColon(head);
    }
    ColonSplit(head, Pad2(w % 60));
  }

  // ---- the session object ----

  class Session {
    var playing: bool
    var current: Option<nat>
    var length: real
    var startTime: real
    var seeking: bool
    var engine: Engine
    /** PYGAME_AVAILABLE: whether the engine could be imported. */
    const available: bool

    function State(): SessionState
      reads this
    {
      SessionState(playing, current, length, startTime, seeking, engine)
    }

    ghost predicate Valid()
      reads this
    {
      Inv(State(), available)
    }

    /** The fields as `__init__` sets them. */
    constructor (engineAvailable: bool)
      ensures Valid() && State() == Idle && available == engineAvailable
    {
      playing, current, length, startTime, seeking := false, None, 0.0, 0.0, false;
      engine := Engine("", false, 0.0);
      available := engineAvailable;
    }

    /** `stop_playback` */
    method Stop()
      requires Valid()
      modifies this
      ensures Valid() && State() == Stopped(old(State()), available)
    {
      if available && playing {
        engine := engine.(running := false);
      }
      playing, current, length, startTime, seeking := false, None, 0.0, 0.0, false;
    }

    /** `check_playback_status`, given `get_busy()`; returns whether it polls again. */
    method Poll(busy: bool) returns (again: bool)
      requires Valid()
      modifies this
      ensures Valid() && Step(State(), again) == Polled(old(State()), available, busy)
    {
      again := false;
      if playing {
        if !busy {
          Stop();
        } else {
          again := true;
        }
      }
    }

    /** `toggle_playback` over the table `songs` of the library at `root`. */
    method Toggle(songs: seq<Song>, root: string, inp: ToggleInputs) returns (outcome: ToggleOutcome)
      requires Valid() && LengthOk(inp)
      modifies this
      ensures Valid() && ToggleResult(State(), outcome) == Toggled(old(State()), available, songs, root, inp)
    {
      if !available {
        return EngineMissing;
      }
      if inp.selection.None? {
        if playing {
          Stop();
          return StoppedPlayback;
        }
        return NoSelection;
      }
      var id := inp.selection.value;
      if playing && current == Some(id) {
        Stop();
        return StoppedPlayback;
      }
      if playing {
        Stop();
      }
      var row := FindById(songs, id);
      if row.None? {
        return NotInDatabase;
      }
      if !inp.fileExists {
        return FileMissing;
      }
      if inp.loadFails {
        Stop();
        return PlayFailed;
      }
      engine := Engine(JoinPath(root, row.value.relativePath), true, 0.0);
      length := inp.probedLength.GetOr(0.0);
      startTime := 0.0;
      playing := true;
      current := Some(id);
      var ticking := length > 0.0;
      if ticking {
        // `seek_slider.set(0)` on the enabled slider runs `on_seek(0)`.
        var guardArmed, resumed := Seek(songs, root, SeekInputs(0.0, false, inp.busy));
      }
      var polling := Poll(inp.busy);
      outcome := Started(ticking, polling);
    }

    /** `on_seek` with the slider at `inp.value`. */
    method Seek(songs: seq<Song>, root: string, inp: SeekInputs) returns (guardArmed: bool, polling: bool)
      requires Valid() && 0.0 <= inp.value <= 100.0
      modifies this
      ensures Valid() && SeekResult(State(), guardArmed, polling) == Sought(old(State()), available, songs, root, inp)
    {
      guardArmed, polling := false, false;
      if !available || length <= 0.0 {
        return;
      }
      if current.None? {
        return;
      }
      seeking := true;
      var position := SeekTarget(inp.value, length);
      SeekTargetWithin(inp.value, length);
      var row := FindById(songs, current.value);
      if row.None? {
        seeking := false;
        return;
      }
      if !inp.loadFails {
        engine := Engine(JoinPath(root, row.value.relativePath), true, position);
        startTime := position;
        // The resume branch of `on_seek` (`if not self.is_playing`) cannot run
        // here: `Valid()` ties a current track to a playing session, so the
        // session is still playing (`SeekKeepsPlaying`).
        assert playing;
      }
      guardArmed := true;
    }

    /** The seek guard firing: `is_seeking` is cleared. */
    method ClearSeeking()
      requires Valid()
      modifies this
      ensures Valid() && State() == GuardExpired(old(State()))
    {
      seeking := false;
    }

    /**
     * `update_seek_bar` with `get_pos()` reporting `posMs`: it shows the
     * seek-bar position, and its `set` on the slider runs `on_seek` with the
     * shown percentage, over the table `songs` of the library at `root`.
     */
    method UpdateSeekBar(songs: seq<Song>, root: string, posMs: int, loadFails: bool) returns (tick: Tick, guardArmed: bool)
      requires Valid()
      modifies this
      ensures Valid() && TickResult(State(), tick, guardArmed) == Ticked(old(State()), available, songs, root, posMs, loadFails)
    {
      guardArmed := false;
      if !playing || !available {
        return Tick(None, false), false;
      }
      if seeking || posMs < 0 || length <= 0.0 {
        return Tick(None, true), false;
      }
      var cur := Position(State(), posMs);
      var percent := cur / length * 100.0;
      tick := Tick(Some(Shown(percent, FormatTime(cur) + " / " + FormatTime(length))), true);
      PositionClamped(State(), posMs);
      PercentWithin(cur, length);
      ghost var s0 := State();
      assert SeekBar(s0, available, posMs) == tick;
      var resumed;
      guardArmed, resumed := Seek(songs, root, SeekInputs(percent, loadFails, false));
    }
  }
}
