/** The jukebox as `main` sets it up: seven buttons registered in a fixed
    order, two of them with autoplay, one of them (on a folder that holds
    no tracks) a pure "stop" button. The contents of the six song folders
    are parameters: each is the list the folder's enumeration yields. */
module Windbox {
  import opened Arbiter
  import opened Player
  import opened Tracks
  import opened Button
  import opened Registry
  import opened PollLoop

  /** The first four registrations of `main`: the buttons without autoplay. */
  function PlainButtons(green: seq<string>, red: seq<string>, yellow: seq<string>, blue: seq<string>): (reg: PlayButtons)
    ensures Inv(reg) && |reg.buttons| == 4 && !IsActive(reg.state)
    ensures reg.buttons[0] == New(0, 2, green, false, DefaultMinPlaytimeSec)
    ensures reg.buttons[1] == New(1, 3, red, false, DefaultMinPlaytimeSec)
    ensures reg.buttons[2] == New(2, 4, yellow, false, DefaultMinPlaytimeSec)
    ensures reg.buttons[3] == New(3, 17, blue, false, DefaultMinPlaytimeSec)
  {
    var r1 := Add(Empty(), 2, green, false, DefaultMinPlaytimeSec);
    var r2 := Add(r1, 3, red, false, DefaultMinPlaytimeSec);
    var r3 := Add(r2, 4, yellow, false, DefaultMinPlaytimeSec);
    Add(r3, 17, blue, false, DefaultMinPlaytimeSec)
  }

  /** The registry after `main`'s seven registrations, in `main`'s order,
      each with the default minimum play time. The last folder is
      `/dev/null`, which is not a directory, so its enumeration is empty. */
  function Configure(green: seq<string>, red: seq<string>, yellow: seq<string>, blue: seq<string>,
                     black: seq<string>, white: seq<string>): (reg: PlayButtons)
    ensures Inv(reg) && |reg.buttons| == 7 && !IsActive(reg.state)
    ensures reg.buttons[0] == New(0, 2, green, false, DefaultMinPlaytimeSec)
    ensures reg.buttons[1] == New(1, 3, red, false, DefaultMinPlaytimeSec)
    ensures reg.buttons[2] == New(2, 4, yellow, false, DefaultMinPlaytimeSec)
    ensures reg.buttons[3] == New(3, 17, blue, false, DefaultMinPlaytimeSec)
    ensures reg.buttons[4] == New(4, 22, black, true, DefaultMinPlaytimeSec)
    ensures reg.buttons[5] == New(5, 27, white, true, DefaultMinPlaytimeSec)
    ensures reg.buttons[6] == New(6, 10, [], false, DefaultMinPlaytimeSec)
  {
    var r4 := PlainButtons(green, red, yellow, blue);
    var r5 := Add(r4, 22, black, true, DefaultMinPlaytimeSec);
    var r6 := Add(r5, 27, white, true, DefaultMinPlaytimeSec);
    var r7 := Add(r6, 10, [], false, DefaultMinPlaytimeSec);
    r7
  }

  /** The buttons of `main`'s setup: ids are positions, exactly the pin-22
      and pin-27 buttons (4 and 5) autoplay, every cursor starts at the
      first track, buttons 4 and 5 hold the sorted black and white folders,
      and button 6 (pin 10) holds no tracks. */
  lemma MainButtons(green: seq<string>, red: seq<string>, yellow: seq<string>, blue: seq<string>,
                    black: seq<string>, white: seq<string>)
    ensures var reg := Configure(green, red, yellow, blue, black, white);
      && (forall i :: 0 <= i < 7 ==> reg.buttons[i].id == i && reg.buttons[i].nextTrackIdx == 0)
      && (forall i :: 0 <= i < 7 ==> (reg.buttons[i].autoplay <==> i == 4 || i == 5))
      && reg.buttons[4].pin == 22 && reg.buttons[5].pin == 27 && reg.buttons[6].pin == 10
      && reg.buttons[4].tracks == Sort(black) && reg.buttons[5].tracks == Sort(white)
      && NumTracks(reg.buttons[6]) == 0
  {
    var reg := Configure(green, red, yellow, blue, black, white);
    forall i | 0 <= i < 7
      ensures reg.buttons[i].id == i && reg.buttons[i].nextTrackIdx == 0
      ensures reg.buttons[i].autoplay <==> i == 4 || i == 5
    {
      if i == 0 {} else if i == 1 {} else if i == 2 {} else if i == 3 {}
      else if i == 4 {} else if i == 5 {} else {}
    }
  }

  /** On `main`'s setup, one press of the pin-22 button plays the whole
      black folder: the press and the idle ticks that follow load every
      track of the folder once, in sorted order, and then nothing autoplays.
      A one-track folder is played by the press alone. */
  lemma BlackButtonPlaysFolder(green: seq<string>, red: seq<string>, yellow: seq<string>, blue: seq<string>,
                               black: seq<string>, white: seq<string>)
    requires |black| > 0
    ensures var press := PressAt(Configure(green, red, yellow, blue, black, white), 4);
      && IdleTicks(press.reg, |black| - 1).Ok?
      && Loads(press.events + IdleTicks(press.reg, |black| - 1).value.events) == Sort(black)
      && !IsActive(IdleTicks(press.reg, |black| - 1).value.reg.state)
  {
    var reg := Configure(green, red, yellow, blue, black, white);
    MainButtons(green, red, yellow, blue, black, white);
    if |black| == 1 {
      // The single-track quirk: the press itself clears the active id, and
      // no idle tick follows.
      SingleTrackChain(reg, 4);
      var press := PressAt(reg, 4);
      assert press.events + [] == press.events;
    } else {
      AutoplayChain(reg, 4);
    }
  }

  /** Only the pin-22 and pin-27 buttons autoplay, so whatever presses and
      ticks happen, the active id is only ever -1, 4 or 5, and the tick's
      lookup never fails. */
  lemma ActiveIdIsBlackOrWhite(green: seq<string>, red: seq<string>, yellow: seq<string>, blue: seq<string>,
                               black: seq<string>, white: seq<string>, inputs: seq<Input>)
    ensures var run := Run(Configure(green, red, yellow, blue, black, white), inputs);
      && run.Ok?
      && GetActiveId(run.value.reg.state) in {NoId, 4, 5}
  {
    var reg := Configure(green, red, yellow, blue, black, white);
    MainButtons(green, red, yellow, blue, black, white);
    RunKeepsInv(reg, inputs);
    var after := Run(reg, inputs).value.reg;
    assert SameButtons(reg.buttons, after.buttons);
    var k := GetActiveId(after.state);
    if k != NoId {
      assert 0 <= k < 7 && after.buttons[k].autoplay;
      assert reg.buttons[k].autoplay;
    }
  }

  /** The "stop" button ends whatever autoplays, without loading anything. */
  lemma StopButtonEndsAutoplay(green: seq<string>, red: seq<string>, yellow: seq<string>, blue: seq<string>,
                               black: seq<string>, white: seq<string>, inputs: seq<Input>)
    ensures var run := Run(Configure(green, red, yellow, blue, black, white), inputs);
      run.Ok? &&
      var stop := PressAt(run.value.reg, 6);
      stop.events == [Stop] && !IsActive(stop.reg.state)
  {
    var reg := Configure(green, red, yellow, blue, black, white);
    MainButtons(green, red, yellow, blue, black, white);
    RunKeepsInv(reg, inputs);
    var after := Run(reg, inputs).value.reg;
    assert SameButtons(reg.buttons, after.buttons);
    assert NumTracks(after.buttons[6]) == 0;
  }
}
