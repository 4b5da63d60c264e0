/** The main loop of the jukebox, one tick at a time. A tick does nothing
    while the player is busy; once it is idle, it presses the button whose
    playlist is autoplaying, if any, so that the next track follows. The
    0.2 s pause between ticks takes no modelled time. */
module PollLoop {
  import opened Arbiter
  import opened Player
  import opened Button
  import opened Registry

  /** One tick of the loop; `busy` is the player's report. The lookup of
      the active button fails with `NotFound` when no button has its id. */
  function Tick(reg: PlayButtons, busy: bool): (r: Result<Step>)
    requires AllWellFormed(reg.buttons)
    ensures r.Ok? ==> AllWellFormed(r.value.reg.buttons) && SameButtons(reg.buttons, r.value.reg.buttons)
    // Busy, or idle with nothing autoplaying: nothing happens.
    ensures busy || !IsActive(reg.state) ==> r == Ok(Step(reg, []))
    // Idle with button k autoplaying: exactly a press of that button.
    ensures !busy && IsActive(reg.state) && DenseIds(reg.buttons) && GetActiveId(reg.state) < |reg.buttons| ==>
      r == Ok(PressAt(reg, GetActiveId(reg.state)))
    // Idle with an active id that no button carries: the lookup fails.
    ensures !busy && IsActive(reg.state) && DenseIds(reg.buttons) && GetActiveId(reg.state) >= |reg.buttons| ==>
      r == Err(NotFound(GetActiveId(reg.state)))
  {
    if busy then Ok(Step(reg, []))
    else if !IsActive(reg.state) then Ok(Step(reg, []))
    else
      var id := GetActiveId(reg.state);
      GetByIdDense(reg, id);
      match Find(reg.buttons, id)
      case Err(e) => Err(e)
      case Ok(k) => Ok(PressAt(reg, k))
  }

  /** Under the invariant a tick never fails and keeps the invariant. */
  lemma TickKeepsInv(reg: PlayButtons, busy: bool)
    requires Inv(reg)
    ensures Tick(reg, busy).Ok? && Inv(Tick(reg, busy).value.reg)
  {
    if !busy && IsActive(reg.state) {
      PressKeepsInv(reg, GetActiveId(reg.state));
    }
  }

  /** `m` ticks during which the player is never busy. */
  function IdleTicks(reg: PlayButtons, m: nat): (r: Result<Step>)
    requires AllWellFormed(reg.buttons)
    ensures r.Ok? ==> AllWellFormed(r.value.reg.buttons) && SameButtons(reg.buttons, r.value.reg.buttons)
    decreases m
  {
    if m == 0 then Ok(Step(reg, []))
    else match Tick(reg, false)
      case Err(e) => Err(e)
      case Ok(first) =>
        match IdleTicks(first.reg, m - 1)
        case Err(e) => Err(e)
        case Ok(rest) => Ok(Step(rest.reg, first.events + rest.events))
  }

  /** With nothing autoplaying, idle ticks change nothing. */
  lemma {:induction false} IdleTicksWhenInactive(reg: PlayButtons, m: nat)
    requires AllWellFormed(reg.buttons) && !IsActive(reg.state)
    ensures IdleTicks(reg, m) == Ok(Step(reg, []))
    decreases m
  {
    if m > 0 {
      IdleTicksWhenInactive(reg, m - 1);
      var none: seq<PlayerEvent> := [];
      assert none + none == none;
    }
  }

  /** Button k autoplays the tracks `ts` and its cursor is at c. */
  predicate Autoplaying(reg: PlayButtons, k: nat, ts: seq<string>, c: nat) {
    && DenseIds(reg.buttons) && AllWellFormed(reg.buttons) && !IsLockSet(reg.state)
    && k < |reg.buttons| && reg.buttons[k].autoplay && GetActiveId(reg.state) == k
    && reg.buttons[k].tracks == ts && reg.buttons[k].nextTrackIdx == c && c < |ts|
  }

  /** An idle tick while button k autoplays presses button k: its current
      track plays, and button k goes on autoplaying from the next track
      unless that track was the last. */
  lemma AutoplayTick(reg: PlayButtons, k: nat, ts: seq<string>, c: nat)
    requires Autoplaying(reg, k, ts, c)
    ensures var first := PressAt(reg, k);
      && Tick(reg, false) == Ok(first)
      && first.events == PlayTrack(ts[c])
      && (c + 1 < |ts| ==> Autoplaying(first.reg, k, ts, c + 1))
      && (c + 1 == |ts| ==> !IsActive(first.reg.state))
  {
    PressPlaysNext(reg, k);
  }

  /** The first of several idle ticks, then the rest. */
  lemma IdleTicksUnfold(reg: PlayButtons, m: nat, first: Step)
    requires AllWellFormed(reg.buttons) && m > 0 && Tick(reg, false) == Ok(first)
    ensures AllWellFormed(first.reg.buttons)
    ensures IdleTicks(first.reg, m - 1).Ok? ==>
      IdleTicks(reg, m) == Ok(Step(IdleTicks(first.reg, m - 1).value.reg, first.events + IdleTicks(first.reg, m - 1).value.events))
  {
  }

  /** Idle ticks from a state meeting the invariant never fail and keep it. */
  lemma {:induction false} IdleTicksKeepInv(reg: PlayButtons, m: nat)
    requires Inv(reg)
    ensures IdleTicks(reg, m).Ok? && Inv(IdleTicks(reg, m).value.reg)
    decreases m
  {
    if m > 0 {
      TickKeepsInv(reg, false);
      IdleTicksKeepInv(Tick(reg, false).value.reg, m - 1);
    }
  }

  /** Autoplay continuation: while button k autoplays the tracks `ts` from
      cursor c, the next N - c idle ticks play tracks c..N-1 in order, after
      which nothing autoplays. */
  lemma {:induction false} AutoplayRunsToEnd(reg: PlayButtons, k: nat, ts: seq<string>, c: nat)
    requires Autoplaying(reg, k, ts, c)
    ensures IdleTicks(reg, |ts| - c).Ok?
    ensures IdleTicks(reg, |ts| - c).value.events == PlayAll(ts[c..])
    ensures !IsActive(IdleTicks(reg, |ts| - c).value.reg.state)
    decreases |ts| - c
  {
    var m := |ts| - c;
    var first := PressAt(reg, k);
    AutoplayTick(reg, k, ts, c);
    IdleTicksUnfold(reg, m, first);
    PlayAllSuffix(ts, c);
    if c + 1 == |ts| {
      assert ts[c + 1..] == [];
    } else {
      AutoplayRunsToEnd(first.reg, k, ts, c + 1);
      assert m - 1 == |ts| - (c + 1);
    }
  }

  /** The autoplay chain from a physical press: pressing an autoplay button
      with N > 1 tracks at its first track plays that track and marks it
      active; the next N - 1 idle ticks play the rest in order; then nothing
      autoplays and further idle ticks change nothing. */
  lemma AutoplayChain(reg: PlayButtons, k: nat)
    requires Inv(reg) && k < |reg.buttons|
    requires reg.buttons[k].autoplay && NumTracks(reg.buttons[k]) > 1 && reg.buttons[k].nextTrackIdx == 0
    ensures var b := reg.buttons[k];
      var press := PressAt(reg, k);
      && press.events == PlayTrack(b.tracks[0])
      && GetActiveId(press.reg.state) == k
      && IdleTicks(press.reg, NumTracks(b) - 1).Ok?
      && var rest := IdleTicks(press.reg, NumTracks(b) - 1).value;
         && rest.events == PlayAll(b.tracks[1..])
         && Loads(press.events + rest.events) == b.tracks
         && !IsActive(rest.reg.state)
         && forall m: nat :: IdleTicks(rest.reg, m) == Ok(Step(rest.reg, []))
  {
    var b := reg.buttons[k];
    var press := PressAt(reg, k);
    PressKeepsInv(reg, k);
    AutoplayRunsToEnd(press.reg, k, b.tracks, 1);
    var rest := IdleTicks(press.reg, NumTracks(b) - 1).value;
    forall m: nat
      ensures IdleTicks(rest.reg, m) == Ok(Step(rest.reg, []))
    {
      IdleTicksWhenInactive(rest.reg, m);
    }
    assert b.tracks == [b.tracks[0]] + b.tracks[1..];
    PlayAllAppend([b.tracks[0]], b.tracks[1..]);
    assert PlayAll([b.tracks[0]]) == PlayTrack(b.tracks[0]) + PlayAll([]);
    LoadsOfPlayAll(b.tracks);
  }

  /** The chain for a one-track autoplay button: the press plays the track
      and, by the wrap test, already clears the active id, so no idle tick
      re-presses it and further idle ticks change nothing. */
  lemma SingleTrackChain(reg: PlayButtons, k: nat)
    requires Inv(reg) && k < |reg.buttons|
    requires reg.buttons[k].autoplay && NumTracks(reg.buttons[k]) == 1
    ensures var press := PressAt(reg, k);
      && Loads(press.events) == reg.buttons[k].tracks
      && !IsActive(press.reg.state)
      && forall m: nat :: IdleTicks(press.reg, m) == Ok(Step(press.reg, []))
  {
    var press := PressAt(reg, k);
    SingleTrackAutoplayStops(reg.buttons[k], reg.state);
    forall m: nat
      ensures IdleTicks(press.reg, m) == Ok(Step(press.reg, []))
    {
      IdleTicksWhenInactive(press.reg, m);
    }
  }

  /** An input to the running system: the hardware callback of the button
      with the given id fires, or the loop ticks with the player's report. */
  datatype Input = Pushed(id: int) | Poll(busy: bool)

  /** One input. Only registered buttons have a callback, so a press of an
      id outside the registry has no effect. */
  function Handle(reg: PlayButtons, input: Input): (r: Result<Step>)
    requires AllWellFormed(reg.buttons)
    ensures r.Ok? ==> AllWellFormed(r.value.reg.buttons) && SameButtons(reg.buttons, r.value.reg.buttons)
  {
    match input
    case Pushed(id) =>
      if 0 <= id < |reg.buttons| then Ok(PressAt(reg, id)) else Ok(Step(reg, []))
    case Poll(busy) => Tick(reg, busy)
  }

  /** Every input keeps the invariant, and none fails its lookup. */
  lemma HandleKeepsInv(reg: PlayButtons, input: Input)
    requires Inv(reg)
    ensures Handle(reg, input).Ok? && Inv(Handle(reg, input).value.reg)
  {
    match input
    case Pushed(id) =>
      if 0 <= id < |reg.buttons| {
        PressKeepsInv(reg, id);
      }
    case Poll(busy) =>
      TickKeepsInv(reg, busy);
  }

  /** The inputs handled one after the other; a failed lookup stops the run,
      as the uncaught `ValueError` ends the loop. */
  function Run(reg: PlayButtons, inputs: seq<Input>): (r: Result<Step>)
    requires AllWellFormed(reg.buttons)
    ensures r.Ok? ==> AllWellFormed(r.value.reg.buttons) && SameButtons(reg.buttons, r.value.reg.buttons)
    decreases |inputs|
  {
    if |inputs| == 0 then Ok(Step(reg, []))
    else match Handle(reg, inputs[0])
      case Err(e) => Err(e)
      case Ok(first) =>
        match Run(first.reg, inputs[1..])
        case Err(e) => Err(e)
        case Ok(rest) => Ok(Step(rest.reg, first.events + rest.events))
  }

  /** Whatever the inputs, a run from a state meeting the invariant never
      fails its lookup, keeps the invariant and changes only cursors and the
      shared state. */
  lemma {:induction false} RunKeepsInv(reg: PlayButtons, inputs: seq<Input>)
    requires Inv(reg)
    ensures Run(reg, inputs).Ok? && Inv(Run(reg, inputs).value.reg)
    decreases |inputs|
  {
    if |inputs| > 0 {
      HandleKeepsInv(reg, inputs[0]);
      var first := Handle(reg, inputs[0]).value;
      RunKeepsInv(first.reg, inputs[1..]);
    }
  }
}
