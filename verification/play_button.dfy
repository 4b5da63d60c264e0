/** One play button: a playlist bound to a hardware button, with its own
    cursor into the playlist and its own autoplay flag. A press stops the
    player, plays the track under the cursor, advances the cursor and
    decides whether the poll loop should continue the playlist. */
module Button {
  import opened Arbiter
  import opened Player
  import opened Tracks

  /** Global floor of a button's minimum play time, in seconds: a button
      may bounce and report several presses for one. */
  const MinDebouncingTimeSec: real := 0.5

  datatype PlayButton = PlayButton(
    id: int,
    pin: int,
    autoplay: bool,
    minPlaytimeSec: real,
    tracks: seq<string>,
    nextTrackIdx: int)

  /** `c` is `b` with possibly another cursor position. */
  predicate OnlyCursorMoved(b: PlayButton, c: PlayButton) {
    c == b.(nextTrackIdx := c.nextTrackIdx)
  }

  function NumTracks(b: PlayButton): nat {
    |b.tracks|
  }

  /** The cursor points into the playlist, or is 0 when the playlist is empty. */
  predicate WellFormed(b: PlayButton) {
    0 <= b.nextTrackIdx && (b.nextTrackIdx < NumTracks(b) || b.nextTrackIdx == 0)
  }

  /** A new button. `found` is what the folder's enumeration produced (the
      `.mp3` matches followed by the `.ogg` matches). */
  function New(id: int, pin: int, found: seq<string>, autoplay: bool, minPlaytimeSec: real): (b: PlayButton)
    ensures b.id == id && b.pin == pin && b.autoplay == autoplay
    ensures b.minPlaytimeSec >= MinDebouncingTimeSec && b.minPlaytimeSec >= minPlaytimeSec
    ensures b.minPlaytimeSec == minPlaytimeSec || b.minPlaytimeSec == MinDebouncingTimeSec
    ensures Sorted(b.tracks) && multiset(b.tracks) == multiset(found)
    ensures NumTracks(b) == |found|
    ensures b.nextTrackIdx == 0 && WellFormed(b)
  {
    var minPlaytime := if minPlaytimeSec >= MinDebouncingTimeSec then minPlaytimeSec else MinDebouncingTimeSec;
    PlayButton(id, pin, autoplay, minPlaytime, Sort(found), 0)
  }

  /** What a press leaves behind: the button (with its new cursor), the
      shared playback state and the commands sent to the player. */
  datatype Press = Press(button: PlayButton, state: PlaybackState, events: seq<PlayerEvent>)

  /** The autoplay decision, taken on the button whose cursor has already
      been advanced past the track just started. */
  function AutoplayRule(advanced: PlayButton, s: PlaybackState): PlaybackState {
    if advanced.autoplay && advanced.nextTrackIdx == 0 then UnsetActiveId(s)
    else if advanced.autoplay then SetActiveId(s, advanced.id)
    else UnsetActiveId(s)
  }

  /** The cursor position after a press: the next track, wrapping to the
      first after the last. */
  function Advance(b: PlayButton): (r: PlayButton)
    requires WellFormed(b) && NumTracks(b) > 0
    ensures WellFormed(r) && OnlyCursorMoved(b, r)
  {
    b.(nextTrackIdx := if b.nextTrackIdx + 1 == NumTracks(b) then 0 else b.nextTrackIdx + 1)
  }

  /** The advance is the source's `(cursor + 1) % track count`, so the cursor
      stays in [0, N) and wraps to 0 exactly after the last track. */
  lemma AdvanceIsModulo(b: PlayButton)
    requires WellFormed(b) && NumTracks(b) > 0
    ensures Advance(b).nextTrackIdx == (b.nextTrackIdx + 1) % NumTracks(b)
    ensures 0 <= Advance(b).nextTrackIdx < NumTracks(b)
    ensures Advance(b).nextTrackIdx == 0 <==> b.nextTrackIdx == NumTracks(b) - 1
  {
  }

  /** A press of the button. Ignored while any button holds the lock;
      otherwise it takes the lock, stops the player, plays the track under
      the cursor (an empty playlist is a "stop" button), applies the
      autoplay rule and releases the lock. The debounce sleeps inside the
      locked section take no modelled time. */
  function Pressed(b: PlayButton, s: PlaybackState): (p: Press)
    requires WellFormed(b)
    ensures WellFormed(p.button)
    ensures OnlyCursorMoved(b, p.button)
    // A press while the lock is held changes nothing and sends nothing.
    ensures IsLockSet(s) ==> p == Press(b, s, [])
    // Otherwise the player is stopped first and the lock ends up free.
    ensures !IsLockSet(s) ==> !IsLockSet(p.state)
    // A "stop" button plays nothing and ends any autoplay.
    ensures !IsLockSet(s) && NumTracks(b) == 0 ==>
      p.events == [Stop] && p.button == b && !IsActive(p.state) && GetActiveId(p.state) == NoId
    // A playlist button plays the track under the cursor and moves on.
    ensures !IsLockSet(s) && NumTracks(b) > 0 ==>
      && p.events == PlayTrack(b.tracks[b.nextTrackIdx])
      && p.button.nextTrackIdx == (if b.nextTrackIdx == NumTracks(b) - 1 then 0 else b.nextTrackIdx + 1)
    // Autoplay continues exactly when it is on and a track remains after this one.
    ensures !IsLockSet(s) && NumTracks(b) > 0 ==>
      GetActiveId(p.state) == (if b.autoplay && b.nextTrackIdx < NumTracks(b) - 1 then b.id else NoId)
  {
    if IsLockSet(s) then Press(b, s, [])
    else
      var locked := SetLock(s, b.id);
      if NumTracks(b) == 0 then
        Press(b, ReleaseLock(UnsetActiveId(locked)), [Stop])
      else
        var path := b.tracks[b.nextTrackIdx];
        var advanced := Advance(b);
        Press(advanced, ReleaseLock(AutoplayRule(advanced, locked)), PlayTrack(path))
  }

  /** The three cases of the autoplay rule as the press applies them, judged
      by whether the cursor wrapped to 0. */
  lemma AutoplayCases(b: PlayButton, s: PlaybackState)
    requires WellFormed(b) && !IsLockSet(s) && NumTracks(b) > 0
    ensures var p := Pressed(b, s);
      && (b.autoplay && p.button.nextTrackIdx == 0 ==> !IsActive(p.state))
      && (b.autoplay && p.button.nextTrackIdx != 0 ==> GetActiveId(p.state) == b.id)
      && (!b.autoplay ==> !IsActive(p.state))
  {
  }

  /** The single-track quirk: the wrap test comes after the increment, so an
      autoplay button with one track never keeps the playlist going. */
  lemma SingleTrackAutoplayStops(b: PlayButton, s: PlaybackState)
    requires WellFormed(b) && !IsLockSet(s) && NumTracks(b) == 1 && b.autoplay
    ensures var p := Pressed(b, s);
      !IsActive(p.state) && p.button.nextTrackIdx == 0 && Loads(p.events) == b.tracks
  {
    assert b.tracks == [b.tracks[0]];
    LoadsOfPlayTrack(b.tracks[0]);
  }

  /** `m` presses of the same button, one after the other. */
  function PressTimes(b: PlayButton, s: PlaybackState, m: nat): (p: Press)
    requires WellFormed(b)
    ensures WellFormed(p.button)
    ensures OnlyCursorMoved(b, p.button)
    decreases m
  {
    if m == 0 then Press(b, s, [])
    else
      var first := Pressed(b, s);
      var rest := PressTimes(first.button, first.state, m - 1);
      Press(rest.button, rest.state, first.events + rest.events)
  }

  /** Presses while another button holds the lock are all dropped: nothing
      changes and nothing is sent to the player, however many there are. */
  lemma {:induction false} LockedPressesIgnored(b: PlayButton, s: PlaybackState, m: nat)
    requires WellFormed(b) && IsLockSet(s)
    ensures PressTimes(b, s, m) == Press(b, s, [])
    decreases m
  {
    if m > 0 {
      LockedPressesIgnored(b, s, m - 1);
      var none: seq<PlayerEvent> := [];
      assert none + none == none;
    }
  }

  /** Where the cursor stands after `m` unlocked presses from cursor `c`
      with c + m <= N: at c + m, or back at 0 once the last track has
      played. The lock stays free. */
  lemma {:induction false} PressesMoveCursor(b: PlayButton, s: PlaybackState, m: nat)
    requires WellFormed(b) && !IsLockSet(s) && NumTracks(b) > 0
    requires b.nextTrackIdx + m <= NumTracks(b)
    ensures PressTimes(b, s, m).button.nextTrackIdx == (if b.nextTrackIdx + m == NumTracks(b) then 0 else b.nextTrackIdx + m)
    ensures !IsLockSet(PressTimes(b, s, m).state)
    decreases m
  {
    if m > 0 {
      var first := Pressed(b, s);
      PressTimesUnfold(b, s, m);
      if m > 1 {
        PressesMoveCursor(first.button, first.state, m - 1);
      }
    }
  }

  /** Unlocked presses walk the playlist in order: `m` presses starting at
      cursor `c` play tracks c, c+1, ..., c+m-1. */
  lemma PressesPlayInOrder(b: PlayButton, s: PlaybackState, m: nat)
    requires WellFormed(b) && !IsLockSet(s) && NumTracks(b) > 0
    requires b.nextTrackIdx + m <= NumTracks(b)
    ensures PressTimes(b, s, m).events == PlayAll(b.tracks[b.nextTrackIdx .. b.nextTrackIdx + m])
  {
    var c := b.nextTrackIdx;
    if m > 0 {
      PressesPlayFrom(b, s, b.tracks, c, c + m);
      assert (c + m) - c == m;
    }
  }

  /** The induction behind `PressesPlayInOrder`, from cursor `c` up to the
      end `e` of the slice played, over the fixed playlist `ts`. */
  lemma {:induction false} PressesPlayFrom(b: PlayButton, s: PlaybackState, ts: seq<string>, c: nat, e: nat)
    requires WellFormed(b) && !IsLockSet(s) && b.tracks == ts && b.nextTrackIdx == c && c < e <= |ts|
    ensures PressTimes(b, s, e - c).events == PlayAll(ts[c .. e])
    decreases e - c
  {
    var first := Pressed(b, s);
    PressTimesUnfold(b, s, e - c);
    PlayAllSlice(ts, c, e);
    if c + 1 == e {
      assert ts[c + 1 .. e] == [];
    } else {
      PressedMidPlaylist(b, s);
      PressesPlayFrom(first.button, first.state, ts, c + 1, e);
      assert (e - c) - 1 == e - (c + 1);
    }
  }

  /** A press before the last track: the track under the cursor plays, the
      cursor moves one on, and the lock stays free. */
  lemma PressedMidPlaylist(b: PlayButton, s: PlaybackState)
    requires WellFormed(b) && !IsLockSet(s) && b.nextTrackIdx + 1 < NumTracks(b)
    ensures var p := Pressed(b, s);
      && p.events == PlayTrack(b.tracks[b.nextTrackIdx])
      && p.button.tracks == b.tracks
      && p.button.nextTrackIdx == b.nextTrackIdx + 1
      && !IsLockSet(p.state)
  {
  }

  /** The first of `m` presses, then the other `m - 1`. */
  lemma PressTimesUnfold(b: PlayButton, s: PlaybackState, m: nat)
    requires WellFormed(b) && m > 0
    ensures var first := Pressed(b, s);
      var rest := PressTimes(first.button, first.state, m - 1);
      && PressTimes(b, s, m) == Press(rest.button, rest.state, first.events + rest.events)
      && (m == 1 ==> rest == Press(first.button, first.state, []))
  {
  }

  /** Playing a slice of a playlist is playing its first track and then the rest. */
  lemma PlayAllSlice(ts: seq<string>, c: nat, e: nat)
    requires c < e <= |ts|
    ensures PlayAll(ts[c .. e]) == PlayTrack(ts[c]) + PlayAll(ts[c + 1 .. e])
  {
    var played := ts[c .. e];
    assert played[0] == ts[c];
    assert played[1..] == ts[c + 1 .. e];
  }

  /** The suffix case of `PlayAllSlice`, in the form the autoplay proofs use. */
  lemma PlayAllSuffix(ts: seq<string>, c: nat)
    requires c < |ts|
    ensures PlayAll(ts[c..]) == PlayTrack(ts[c]) + PlayAll(ts[c + 1..])
  {
    PlayAllSlice(ts, c, |ts|);
    assert ts[c..] == ts[c .. |ts|] && ts[c + 1..] == ts[c + 1 .. |ts|];
  }

  /** A full round of presses from the first track plays every track once,
      in playlist order, and the next press starts over at the first. */
  lemma FullCycle(b: PlayButton, s: PlaybackState)
    requires WellFormed(b) && !IsLockSet(s) && NumTracks(b) > 0 && b.nextTrackIdx == 0
    ensures Loads(PressTimes(b, s, NumTracks(b)).events) == b.tracks
    ensures PressTimes(b, s, NumTracks(b)).button.nextTrackIdx == 0
    ensures Loads(PressTimes(b, s, NumTracks(b) + 1).events) == b.tracks + [b.tracks[0]]
  {
    var n := NumTracks(b);
    var round := PressTimes(b, s, n);
    PressesPlayInOrder(b, s, n);
    PressesMoveCursor(b, s, n);
    assert b.tracks[0 .. n] == b.tracks;
    LoadsOfPlayAll(b.tracks);
    var again := PressTimes(round.button, round.state, 1);
    assert again.events == PlayTrack(b.tracks[0]) by {
      PressesPlayInOrder(round.button, round.state, 1);
      assert round.button.tracks[0 .. 1] == [b.tracks[0]];
      assert PlayAll([b.tracks[0]]) == PlayTrack(b.tracks[0]) + PlayAll([]);
    }
    LoadsOfPlayTrack(b.tracks[0]);
    PressTimesSplit(b, s, n);
    LoadsAppend(round.events, again.events);
  }

  /** One more press after `m` presses is the `m+1`-st press. */
  lemma {:induction false} PressTimesSplit(b: PlayButton, s: PlaybackState, m: nat)
    requires WellFormed(b)
    ensures var p := PressTimes(b, s, m);
      var q := PressTimes(p.button, p.state, 1);
      PressTimes(b, s, m + 1) == Press(q.button, q.state, p.events + q.events)
    decreases m
  {
    if m == 0 {
      var q := PressTimes(b, s, 1);
      assert q.events == Pressed(b, s).events + [];
    } else {
      var first := Pressed(b, s);
      PressTimesSplit(first.button, first.state, m - 1);
      var p := PressTimes(first.button, first.state, m - 1);
      var q := PressTimes(p.button, p.state, 1);
      assert first.events + (p.events + q.events) == (first.events + p.events) + q.events;
    }
  }
}
