/** The audio player as the core sees it: the commands it is sent, recorded
    as a trace. Whether it is still busy playing is an input of the poll
    loop, not part of this trace. */
module Player {

  datatype PlayerEvent = Stop | Load(path: string) | Play

  /** The paths loaded by a trace, in the order they were loaded. */
  function Loads(evs: seq<PlayerEvent>): (r: seq<string>)
    ensures |r| <= |evs|
    decreases |evs|
  {
    if |evs| == 0 then []
    else if evs[0].Load? then [evs[0].path] + Loads(evs[1..])
    else Loads(evs[1..])
  }

  /** A path is among the loads exactly when the trace holds a `Load` of it. */
  lemma {:induction false} LoadsAreLoadEvents(evs: seq<PlayerEvent>, p: string)
    ensures p in Loads(evs) <==> Load(p) in evs
    decreases |evs|
  {
    if |evs| > 0 {
      LoadsAreLoadEvents(evs[1..], p);
      assert Load(p) in evs <==> evs[0] == Load(p) || Load(p) in evs[1..];
    }
  }

  lemma {:induction false} LoadsAppend(a: seq<PlayerEvent>, b: seq<PlayerEvent>)
    ensures Loads(a + b) == Loads(a) + Loads(b)
    decreases |a|
  {
    if |a| == 0 {
      assert a + b == b;
    } else {
      assert (a + b)[1..] == a[1..] + b;
      LoadsAppend(a[1..], b);
    }
  }

  /** The commands a button press sends to start one track: stop whatever
      plays, load the track, play it. */
  function PlayTrack(path: string): seq<PlayerEvent> {
    [Stop, Load(path), Play]
  }

  lemma LoadsOfPlayTrack(path: string)
    ensures Loads(PlayTrack(path)) == [path]
  {
    var t := PlayTrack(path);
    assert t[1..] == [Load(path), Play] && t[1..][1..] == [Play] && t[1..][1..][1..] == [];
    assert Loads(t[1..][1..][1..]) == [];
    assert Loads(t[1..][1..]) == [];
    assert Loads(t[1..]) == [path];
  }

  /** The commands that play the given tracks one after the other. */
  function PlayAll(paths: seq<string>): seq<PlayerEvent>
    decreases |paths|
  {
    if |paths| == 0 then [] else PlayTrack(paths[0]) + PlayAll(paths[1..])
  }

  /** Playing a list of tracks loads exactly that list, in order. */
  lemma {:induction false} LoadsOfPlayAll(paths: seq<string>)
    ensures Loads(PlayAll(paths)) == paths
    ensures |PlayAll(paths)| == 3 * |paths|
    decreases |paths|
  {
    if |paths| > 0 {
      LoadsOfPlayAll(paths[1..]);
      LoadsAppend(PlayTrack(paths[0]), PlayAll(paths[1..]));
      LoadsOfPlayTrack(paths[0]);
      assert paths == [paths[0]] + paths[1..];
    }
  }

  lemma {:induction false} PlayAllAppend(a: seq<string>, b: seq<string>)
    ensures PlayAll(a + b) == PlayAll(a) + PlayAll(b)
    decreases |a|
  {
    if |a| == 0 {
      assert a + b == b;
    } else {
      assert (a + b)[1..] == a[1..] + b;
      PlayAllAppend(a[1..], b);
    }
  }
}
