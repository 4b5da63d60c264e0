# Windbox jukebox: button arbitration and autoplay, in Dafny

The windbox is a jukebox on a small board. Seven hardware buttons each own a
folder of audio tracks, and all of them share one audio player. This project
models the part of the controller that decides what the player is told to
do:

- the shared playback state (`PlaybackState`): which button's playlist
  autoplays, and which button holds the advisory lock;
- a play button (`PlayButton`): its sorted playlist, its cursor, its
  autoplay flag, and what a press does;
- the registry of buttons (`PlayButtons`): ids handed out in registration
  order and looked up by id;
- one tick of `main`'s poll loop, which presses the autoplaying button again
  once the player is idle;
- `main`'s fixed list of seven registrations.

Everything is a pure function over immutable values. A press returns the new
button, the new shared state and the commands sent to the player. Those
commands are a trace of `Stop`, `Load(path)` and `Play` events. Whether the
player is still busy is an input of each tick.

Modules, leaf to root:

| file | module | models |
|---|---|---|
| `arbiter.dfy` | `Arbiter` | `PlaybackState` |
| `player.dfy` | `Player` | the player-command trace |
| `tracks.dfy` | `Tracks` | the sort of a folder's tracks (Python `str` order) |
| `play_button.dfy` | `Button` | `PlayButton.__init__` and `PlayButton.pressed` |
| `registry.dfy` | `Registry` | `PlayButtons.add` and `get_by_id`, and a press of a registered button |
| `poll_loop.dfy` | `PollLoop` | the loop body of `main`, and runs of presses and ticks |
| `windbox.dfy` | `Windbox` | `main`'s registration list |

Two behaviours of the code are kept exactly as written.

- **Autoplay wrap test.** The rule checks for a wrap *after* the cursor has
  advanced. An autoplay button with a single track therefore clears the
  active id on its only play and never continues.
- **Stop button.** The `/dev/null` folder yields no tracks. Its button only
  stops the player and ends any autoplay.

Three further details of the code that the model keeps:

- `add` returns nothing; the new button's id is the old length of the list.
- The enumeration is the `.mp3` matches followed by the `.ogg` matches. The
  full paths are then sorted together.
- Clearing the active id on an empty playlist is unconditional.

## Model

| member | source | states |
|---|---|---|
| Arbiter.Initial | play_button.py:16-18 | a fresh state has nothing autoplaying and the lock free, both fields -1 |
| Arbiter.SetActiveId | play_button.py:20-25 | after setting, the active id read by `GetActiveId` (`get_active_id`) is the given one, and `IsActive` (`is_active`) holds exactly when it is non-negative; the lock is untouched |
| Arbiter.UnsetActiveId | play_button.py:26-27 | after clearing, nothing is active and the id is -1; the lock is untouched |
| Arbiter.SetLock | play_button.py:29-32 | after taking the lock, `IsLockSet` (`is_lock_set`) holds exactly when the holder id is non-negative; the active playback is untouched |
| Arbiter.ReleaseLock | play_button.py:33-34 | after releasing, the lock is free; the active playback is untouched |
| Arbiter.StateLaws | play_button.py:14-34 | the two fields are independent: later writes override earlier ones, clearing is idempotent, setting the current id changes nothing, and active-id and lock operations commute |
| Button.New | play_button.py:48-70 | a new button has the given id, pin and flag; its minimum play time is the larger of the requested time and 0.5 s; its tracks are a sorted rearrangement of what the folder yielded; the cursor is 0 |
| Tracks.Sort | play_button.py:68 | the result is sorted in Python string order, is a permutation of the input, and has the same length |
| Tracks.Insert | play_button.py:68 | inserting into a sorted list keeps it sorted and adds exactly the new element |
| Tracks.SortIsSortedPermutation | play_button.py:68 | any sorted permutation of the input equals the sort's result, so the order of the two globs does not matter |
| Tracks.SortOfSorted | play_button.py:68 | sorting an already sorted list changes nothing |
| Tracks.SortedUnique | play_button.py:68 | two sorted lists with the same elements are equal |
| Tracks.LexLeTotal | play_button.py:68 | any two paths are comparable in Python string order |
| Tracks.LexLeAntisymmetric | play_button.py:68 | two paths each at most the other are equal |
| Tracks.LexLeTransitive | play_button.py:68 | Python string order is transitive |
| Button.Advance | play_button.py:103 | the advanced cursor stays inside the playlist and nothing else of the button changes |
| Button.AdvanceIsModulo | play_button.py:103 | the advance equals `(cursor + 1) % N`, stays in [0, N), and gives 0 exactly after the last track |
| Button.Pressed | play_button.py:78-117 | while the lock is held a press changes nothing and sends nothing; otherwise the lock ends free and only the cursor may move. An empty playlist sends only `Stop` and sets the active id to -1. Otherwise the press sends `Stop`, `Load` of the track under the cursor and `Play`, then advances the cursor. The active id becomes the button's own exactly when it autoplays and a later track remains; otherwise it is cleared |
| Button.AutoplayCases | play_button.py:105-113 | the three branches of the autoplay rule, which `Button.AutoplayRule` models: autoplay with a wrap clears, autoplay without a wrap sets the own id, no autoplay clears |
| Button.SingleTrackAutoplayStops | play_button.py:103-107 | a one-track autoplay button loads its track, wraps to 0 and clears the active id on every press |
| Button.LockedPressesIgnored | play_button.py:84-85 | any number of presses while the lock is held leave everything as it was and send nothing |
| Button.PressesMoveCursor | play_button.py:96-103 | m unlocked presses from cursor c, with c + m <= N, leave the cursor at c + m, or at 0 when c + m = N; the lock stays free |
| Button.PressesPlayInOrder | play_button.py:96-103 | m unlocked presses from cursor c play tracks c to c + m - 1, each as stop, load and play, in order |
| Button.PressedMidPlaylist | play_button.py:96-103 | a press before the last track plays the track under the cursor and moves the cursor one on |
| Button.FullCycle | play_button.py:96-103 | N presses from cursor 0 load every track exactly once in playlist order and bring the cursor back to 0; press N + 1 loads the first track again |
| Button.PressTimesSplit | play_button.py:78-117 | m + 1 presses are m presses followed by one more, with the traces concatenated |
| Player.LoadsOfPlayAll | play_button.py:101-102 | the commands that play a list of tracks load exactly that list, in order, three commands per track |
| Player.LoadsAreLoadEvents | play_button.py:101 | a path is among the loaded paths exactly when the trace holds a load of it |
| Player.LoadsAppend | play_button.py:101 | the loads of two traces in sequence are the loads of each, concatenated |
| Player.PlayAllAppend | play_button.py:101-102 | playing two lists one after the other is playing their concatenation |
| Registry.Empty | play_button.py:124-127 | a new registry has no buttons, a fresh shared state, and meets the registry invariant |
| Registry.Add | play_button.py:129-138 | registering appends exactly the button that construction creates under id = old length (sorted tracks, clamped play time, cursor 0); earlier buttons and the shared state are kept, and so are ids equal to positions and the invariant |
| Registry.Find | play_button.py:140-143 | the search returns the first position whose button carries the id, and fails with `NotFound(id)` exactly when no button carries it |
| Registry.GetById | play_button.py:140-146 | the lookup returns a registered button with the given id, and fails with `NotFound(id)` exactly when no button carries it |
| Registry.GetByIdDense | play_button.py:132-146 | when ids equal positions, a lookup of an id in range returns the button at that position and any other id fails |
| Registry.AddsGiveDenseIds | play_button.py:129-146 | after a registration the new id finds the new button and every earlier id finds what it found before |
| Registry.PressAt | play_button.py:78-117 | pressing a registered button is its `pressed` applied to that button and the shared state; all other buttons stay as they were |
| Registry.PressKeepsInv | play_button.py:105-113 | a press keeps the invariant, and afterwards the active id is either -1 or the pressed button's id |
| Registry.PressPlaysNext | play_button.py:96-113 | under the invariant, a press of a playlist button plays its current track, moves its cursor on, and makes it active exactly when it autoplays and a track remains |
| PollLoop.Tick | main.py:78-86 | a busy player, or nothing active, gives no change and no commands; an idle player with active id k is exactly a press of button k; an active id that no button carries fails with `NotFound` |
| PollLoop.TickKeepsInv | main.py:83-86 | under the invariant a tick never fails its lookup and keeps the invariant |
| PollLoop.IdleTicksWhenInactive | main.py:83 | with nothing active, any number of idle ticks change nothing and send nothing |
| PollLoop.IdleTicksKeepInv | main.py:78-86 | any number of idle ticks from a state meeting the invariant never fail and keep it |
| PollLoop.AutoplayTick | main.py:83-86 | an idle tick while button k autoplays plays k's current track; k stays autoplaying from the next track unless that was the last, in which case nothing is active |
| PollLoop.AutoplayRunsToEnd | main.py:78-86 | while button k autoplays from cursor c, the next N - c idle ticks play tracks c to N - 1 in order, and then nothing is active |
| PollLoop.AutoplayChain | main.py:78-86 | a press of an autoplay button with N > 1 tracks at its first track plays that track and makes it active. The next N - 1 idle ticks play the rest, so all tracks load once in order. Then nothing is active, and further idle ticks change nothing |
| PollLoop.SingleTrackChain | main.py:83-86 | a press of a one-track autoplay button loads its track and, by the wrap test of play_button.py:103-107, leaves nothing active, so no idle tick presses it again and idle ticks change nothing |
| PollLoop.Handle | main.py:78-86 | a press or a tick changes only cursors and the shared state; a press is the GPIO callback `lambda: self.pressed()` of play_button.py:72-73 |
| PollLoop.HandleKeepsInv | main.py:78-86 | under the invariant every press and every tick keeps it, and no lookup fails |
| PollLoop.Run | main.py:78-86 | a run of presses and ticks changes only cursors and the shared state; each press is the GPIO callback of play_button.py:72-73 |
| PollLoop.RunKeepsInv | main.py:86 | from a state meeting the invariant, no sequence of presses and ticks ever fails the loop's lookup, and the invariant is kept |
| Windbox.PlainButtons | main.py:69-73 | the first four registrations give buttons 0 to 3, each exactly as construction creates it from its pin and folder, without autoplay and with the default play time; the invariant holds |
| Windbox.Configure | main.py:69-76 | `main`'s seven registrations give seven buttons meeting the invariant with nothing active; button i is exactly what construction creates from the i-th line's pin, folder and autoplay flag, with the default play time, and the `/dev/null` folder yields no tracks |
| Windbox.MainButtons | main.py:69-76 | in `main`'s setup ids equal positions and every cursor is 0; exactly buttons 4 and 5 (pins 22 and 27) autoplay; they hold the sorted black and white folders; button 6 (pin 10) has no tracks |
| Windbox.BlackButtonPlaysFolder | main.py:74-86 | on `main`'s setup with a non-empty black folder, one press of the pin-22 button followed by one idle tick per remaining track loads every track of the folder once, in sorted order, and then nothing autoplays; a one-track folder is played by the press alone |
| Windbox.ActiveIdIsBlackOrWhite | main.py:69-86 | after any sequence of presses and ticks on `main`'s setup, the run has not failed and the active id is -1, 4 or 5 |
| Windbox.StopButtonEndsAutoplay | main.py:76 | after any run, pressing the pin-10 button sends only `Stop` and leaves nothing active |

## Left out

- The GPIO wiring and callback registration (play_button.py:72-73). A physical press is an input naming the button's id. A press of an id that no button carries has no effect, since no callback exists for it.
- The audio mixer. Its `stop`, `load` and `play` calls become events in a trace. `get_busy` becomes a boolean input of each tick.
- Mixer failures. `load` and `play` are assumed never to raise. In the code a raising call (play_button.py:101-102) skips `release_lock` (play_button.py:117). The lock then stays held, so every later press returns at play_button.py:84-85. When the loop made the call (main.py:86), the exception ends `main` instead. `Button.Pressed`'s free lock after an unlocked press, `PollLoop.RunKeepsInv`'s "no run fails" and `Windbox.ActiveIdIsBlackOrWhite`'s successful run hold only under this assumption.
- Undecodable file names. Track paths are assumed to be valid Unicode. Python turns file-name bytes that are not valid UTF-8 into lone surrogates, and no Dafny `char` can hold those. The string order of `Tracks.LexLe` is stated only for paths of Unicode scalar values.
- The folder enumeration (play_button.py:65-67). What the two globs find is an input sequence; only the sort is modelled. The `/dev/null` folder is modelled as yielding an empty list.
- The sleeps: the debounce sleeps inside a press and the 0.2 s pause between ticks. They take no modelled time. Only the clamp of the minimum play time is kept, as a `real`.
- Logging. It has no effect on behaviour.
- The infinite loop itself. The model covers one tick, a finite number of idle ticks, and finite runs of presses and ticks.
- Races between the callback thread and the loop. The lock's check-then-set is not atomic in the code; the model runs every press and tick to completion, one at a time.
- The default argument `id=0` of `set_lock`. Every call in the code passes an id.
- PollLoop.Tick: the contract pins down the lookup only for registries whose ids equal their positions. Every registry built by `add` has this property.
