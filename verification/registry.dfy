/** The set of play buttons. Registering a button gives it the id equal to
    its position in the list; all buttons share one playback state. */
module Registry {
  import opened Arbiter
  import opened Player
  import opened Button

  /** Default minimum play time of a registered button, in seconds. */
  const DefaultMinPlaytimeSec: real := 10.0

  /** The `ValueError` raised when looking up an id no button carries. */
  datatype Error = NotFound(id: int)

  datatype Result<T> = Ok(value: T) | Err(error: Error)

  datatype PlayButtons = PlayButtons(buttons: seq<PlayButton>, state: PlaybackState)

  /** The state between operations, as every operation leaves it: ids are
      positions, every cursor is in range, the lock is free, and the active
      id is -1 or names a registered autoplay button. */
  predicate Inv(reg: PlayButtons) {
    && DenseIds(reg.buttons)
    && AllWellFormed(reg.buttons)
    && !IsLockSet(reg.state)
    && ActiveIsAutoplayButton(reg)
  }

  predicate DenseIds(bs: seq<PlayButton>) {
    forall i :: 0 <= i < |bs| ==> bs[i].id == i
  }

  predicate AllWellFormed(bs: seq<PlayButton>) {
    forall i :: 0 <= i < |bs| ==> WellFormed(bs[i])
  }

  predicate ActiveIsAutoplayButton(reg: PlayButtons) {
    GetActiveId(reg.state) == NoId
    || (0 <= GetActiveId(reg.state) < |reg.buttons| && reg.buttons[GetActiveId(reg.state)].autoplay)
  }

  /** Two button lists that differ at most in their cursors. */
  predicate SameButtons(bs: seq<PlayButton>, cs: seq<PlayButton>) {
    |bs| == |cs| && forall i :: 0 <= i < |bs| ==> cs[i] == bs[i].(nextTrackIdx := cs[i].nextTrackIdx)
  }

  function Empty(): (reg: PlayButtons)
    ensures |reg.buttons| == 0 && reg.state == Initial()
    ensures Inv(reg)
  {
    PlayButtons([], Initial())
  }

  /** Registers a new button behind the existing ones. */
  function Add(reg: PlayButtons, pin: int, found: seq<string>, autoplay: bool, minPlaytimeSec: real): (r: PlayButtons)
    ensures |r.buttons| == |reg.buttons| + 1 && r.buttons[..|reg.buttons|] == reg.buttons
    ensures forall i :: 0 <= i < |reg.buttons| ==> r.buttons[i] == reg.buttons[i]
    ensures r.buttons[|reg.buttons|] == New(|reg.buttons|, pin, found, autoplay, minPlaytimeSec)
    ensures r.buttons[|reg.buttons|].id == |reg.buttons|
    ensures r.buttons[|reg.buttons|].autoplay == autoplay && r.buttons[|reg.buttons|].pin == pin
    ensures r.state == reg.state
    ensures DenseIds(reg.buttons) ==> DenseIds(r.buttons)
    ensures Inv(reg) ==> Inv(r)
  {
    var b := New(|reg.buttons|, pin, found, autoplay, minPlaytimeSec);
    PlayButtons(reg.buttons + [b], reg.state)
  }

  /** Linear search for the position of the first button carrying `id`. */
  function Find(bs: seq<PlayButton>, id: int): (r: Result<nat>)
    ensures r.Ok? ==> r.value < |bs| && bs[r.value].id == id
    ensures r.Ok? ==> forall j :: 0 <= j < r.value ==> bs[j].id != id
    ensures r.Err? <==> forall i :: 0 <= i < |bs| ==> bs[i].id != id
    ensures r.Err? ==> r.error == NotFound(id)
    decreases |bs|
  {
    if |bs| == 0 then Err(NotFound(id))
    else if bs[0].id == id then Ok(0)
    else match Find(bs[1..], id)
      case Ok(i) => Ok(i + 1)
      case Err(e) => Err(e)
  }

  /** The button with the given id, or `NotFound`. */
  function GetById(reg: PlayButtons, id: int): (r: Result<PlayButton>)
    ensures r.Ok? ==> r.value.id == id && r.value in reg.buttons
    ensures r.Err? <==> forall i :: 0 <= i < |reg.buttons| ==> reg.buttons[i].id != id
    ensures r.Err? ==> r.error == NotFound(id)
  {
    match Find(reg.buttons, id)
    case Ok(i) => Ok(reg.buttons[i])
    case Err(e) => Err(e)
  }

  /** With ids equal to positions, a lookup finds the button at position
      `id` for every id in range and fails for every other id. */
  lemma GetByIdDense(reg: PlayButtons, id: int)
    ensures DenseIds(reg.buttons) && 0 <= id < |reg.buttons| ==>
      Find(reg.buttons, id) == Ok(id) && GetById(reg, id) == Ok(reg.buttons[id])
    ensures DenseIds(reg.buttons) && !(0 <= id < |reg.buttons|) ==>
      GetById(reg, id) == Err(NotFound(id))
  {
    if DenseIds(reg.buttons) && 0 <= id < |reg.buttons| {
      assert reg.buttons[id].id == id;
      var r := Find(reg.buttons, id);
      assert r.Ok? && reg.buttons[r.value].id == r.value;
    }
  }

  /** Registering keeps ids dense: the new button is found under the next
      id, and every earlier id still finds the button it found before. */
  lemma AddsGiveDenseIds(reg: PlayButtons, pin: int, found: seq<string>, autoplay: bool, minPlaytimeSec: real)
    requires Inv(reg)
    ensures var r := Add(reg, pin, found, autoplay, minPlaytimeSec);
      && Inv(r)
      && GetById(r, |reg.buttons|) == Ok(r.buttons[|reg.buttons|])
      && forall k :: 0 <= k < |reg.buttons| ==> GetById(r, k) == GetById(reg, k)
  {
    var r := Add(reg, pin, found, autoplay, minPlaytimeSec);
    GetByIdDense(r, |reg.buttons|);
    forall k | 0 <= k < |reg.buttons|
      ensures GetById(r, k) == GetById(reg, k)
    {
      GetByIdDense(r, k);
      GetByIdDense(reg, k);
    }
  }

  /** A step of the system: the registry afterwards and the commands sent
      to the player. */
  datatype Step = Step(reg: PlayButtons, events: seq<PlayerEvent>)

  /** Pressing the button at position `k`: only that button's cursor and the
      shared state can change. */
  function PressAt(reg: PlayButtons, k: nat): (r: Step)
    requires k < |reg.buttons| && AllWellFormed(reg.buttons)
    ensures AllWellFormed(r.reg.buttons)
    ensures SameButtons(reg.buttons, r.reg.buttons)
    ensures forall i :: 0 <= i < |reg.buttons| && i != k ==> r.reg.buttons[i] == reg.buttons[i]
    ensures Pressed(reg.buttons[k], reg.state) == Press(r.reg.buttons[k], r.reg.state, r.events)
  {
    var p := Pressed(reg.buttons[k], reg.state);
    Step(PlayButtons(reg.buttons[k := p.button], p.state), p.events)
  }

  /** Pressing any registered button keeps the invariant. */
  lemma PressKeepsInv(reg: PlayButtons, k: nat)
    requires Inv(reg) && k < |reg.buttons|
    ensures Inv(PressAt(reg, k).reg)
    ensures !IsActive(PressAt(reg, k).reg.state) || GetActiveId(PressAt(reg, k).reg.state) == k
  {
  }

  /** A press of a playlist button under the invariant, in the terms the
      autoplay proofs need: the track under the cursor is played, the cursor
      moves on, and the button becomes (or stays) active exactly when it
      autoplays and a track remains. */
  lemma PressPlaysNext(reg: PlayButtons, k: nat)
    requires Inv(reg) && k < |reg.buttons| && NumTracks(reg.buttons[k]) > 0
    ensures var b := reg.buttons[k];
      var r := PressAt(reg, k);
      && Inv(r.reg)
      && r.events == PlayTrack(b.tracks[b.nextTrackIdx])
      && r.reg.buttons[k] == b.(nextTrackIdx := r.reg.buttons[k].nextTrackIdx)
      && r.reg.buttons[k].nextTrackIdx == (if b.nextTrackIdx == NumTracks(b) - 1 then 0 else b.nextTrackIdx + 1)
      && GetActiveId(r.reg.state) == (if b.autoplay && b.nextTrackIdx < NumTracks(b) - 1 then k else NoId)
      && forall i :: 0 <= i < |reg.buttons| && i != k ==> r.reg.buttons[i] == reg.buttons[i]
  {
    PressKeepsInv(reg, k);
  }
}
