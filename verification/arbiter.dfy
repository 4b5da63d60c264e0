/** The playback state shared by every play button of the jukebox: which
    button's playlist is autoplaying, and which button holds the advisory
    lock. Both are button ids, with -1 meaning "none". */
module Arbiter {

  /** The id value meaning "no button". */
  const NoId: int := -1

  datatype PlaybackState = PlaybackState(activeId: int, lockId: int)

  /** A fresh state: nothing autoplays and the lock is free. */
  function Initial(): (s: PlaybackState)
    ensures !IsActive(s) && !IsLockSet(s)
    ensures GetActiveId(s) == NoId && s.lockId == NoId
  {
    PlaybackState(NoId, NoId)
  }

  // Active playback.

  predicate IsActive(s: PlaybackState) {
    s.activeId >= 0
  }

  function GetActiveId(s: PlaybackState): int {
    s.activeId
  }

  /** Records `index` as the autoplaying button; the lock is not touched. */
  function SetActiveId(s: PlaybackState, index: int): (r: PlaybackState)
    ensures GetActiveId(r) == index
    ensures IsActive(r) <==> index >= 0
    ensures r.lockId == s.lockId && IsLockSet(r) == IsLockSet(s)
  {
    s.(activeId := index)
  }

  /** Clears the autoplaying button; the lock is not touched. */
  function UnsetActiveId(s: PlaybackState): (r: PlaybackState)
    ensures !IsActive(r) && GetActiveId(r) == NoId
    ensures r.lockId == s.lockId && IsLockSet(r) == IsLockSet(s)
  {
    s.(activeId := NoId)
  }

  // The advisory lock.

  predicate IsLockSet(s: PlaybackState) {
    s.lockId >= 0
  }

  /** Marks the lock as held by `id`; the active playback is not touched. */
  function SetLock(s: PlaybackState, id: int): (r: PlaybackState)
    ensures IsLockSet(r) <==> id >= 0
    ensures r.lockId == id
    ensures r.activeId == s.activeId && IsActive(r) == IsActive(s)
  {
    s.(lockId := id)
  }

  /** Frees the lock; the active playback is not touched. */
  function ReleaseLock(s: PlaybackState): (r: PlaybackState)
    ensures !IsLockSet(r) && r.lockId == NoId
    ensures r.activeId == s.activeId && IsActive(r) == IsActive(s)
  {
    s.(lockId := NoId)
  }

  /** The algebra of the two independent fields: a later write to a field
      overrides an earlier one, clearing is idempotent, and operations on
      the active id commute with operations on the lock. */
  lemma StateLaws(s: PlaybackState, a: int, b: int, l: int)
    ensures SetActiveId(SetActiveId(s, a), b) == SetActiveId(s, b)
    ensures UnsetActiveId(SetActiveId(s, a)) == UnsetActiveId(s)
    ensures UnsetActiveId(UnsetActiveId(s)) == UnsetActiveId(s)
    ensures SetActiveId(s, GetActiveId(s)) == s
    ensures ReleaseLock(SetLock(s, l)) == ReleaseLock(s)
    ensures SetLock(SetActiveId(s, a), l) == SetActiveId(SetLock(s, l), a)
    ensures ReleaseLock(UnsetActiveId(s)) == UnsetActiveId(ReleaseLock(s))
    ensures IsActive(SetLock(s, l)) == IsActive(s)
    ensures IsLockSet(SetActiveId(s, a)) == IsLockSet(s)
  {
  }
}
