/** The two gateway operations themselves, run by one caller among any number of others. */
module Workspace {
  import opened Wrappers
  import opened WorkspaceProtocol

  class Host {
    var disk: Disk
    var lock: Option<nat>
    var callers: map<nat, Caller>
    const calm: bool  // nobody else acts, and nothing fails or dies
    ghost const start: State
    ghost var events: seq<Event>

    ghost function Now(): State
      reads this
    {
      State(disk, lock, callers)
    }

    ghost predicate Valid()
      reads this
    {
      Inv(start) && Run(start, events, Now()) && Inv(Now())
    }

    constructor (disk: Disk, calm: bool)
      requires DiskInv(disk)
      ensures Valid() && this.calm == calm && Now() == State(disk, None, map[])
    {
      this.disk, this.calm := disk, calm;
      lock, callers := None, map[];
      start, events := State(disk, None, map[]), [];
    }

    method Perform(e: Event)
      requires Valid() && Enabled(Now(), e)
      modifies this
      ensures Valid() && old(events) <= events && Now() == Step(old(Now()), e)
    {
      Extend(start, events, Now(), e);
      StepKeepsInv(Now(), e);
      var s := Step(State(disk, lock, callers), e);
      disk, lock, callers, events := s.disk, s.lock, s.callers, events + [e];
    }

    /** Any number of steps of any other callers. */
    method Others(id: nat)
      requires Valid()
      modifies this
      ensures Valid() && old(events) <= events
      ensures id in callers <==> id in old(callers)
      ensures id in callers ==> callers[id] == old(callers[id])
      ensures lock == Some(id) <==> old(lock) == Some(id)
      ensures calm ==> Now() == old(Now())
    {
      if calm { return; }
      var turns: int := *;
      while turns > 0
        invariant Valid() && old(events) <= events
        invariant id in callers <==> id in old(callers)
        invariant id in callers ==> callers[id] == old(callers[id])
        invariant lock == Some(id) <==> old(lock) == Some(id)
      {
        var e: Event := *;
        if e.id != id && Enabled(State(disk, lock, callers), e) { Perform(e); }
        turns := turns - 1;
      }
    }

    /** The next step of caller `id`, after the others have had their turns: it succeeds, or it ends the
        caller with whatever an interrupted step can leave. */
    method Act(id: nat, now: nat)
      requires Valid() && id in callers && !Finished(callers[id])
      requires callers[id].CleanWait? && calm ==> lock == None
      modifies this
      ensures Valid() && old(events) <= events && id in callers
      ensures Remaining(callers[id]) < old(Remaining(callers[id]))
      ensures !callers[id].Failed? ==> (Preparing(callers[id]) <==> old(Preparing(callers[id])))
      ensures calm ==> Now() == Step(old(Now()), Event.Act(id, now))
    {
      hide Run, Inv;
      Others(id);
      var e := Event.Act(id, now);
      var ok := calm;
      if !ok { ok := *; }
      NextAdvances(disk, callers[id], now);
      if ok && Enabled(State(disk, lock, callers), e) {
        Perform(e);
      } else {
        var left: Disk := *;
        if !Leaves(disk, callers[id], left) { left := disk; }
        Perform(Stop(id, left));
      }
    }

    /** Take the lock and come to the first check, or give up waiting. */
    method Enter(id: nat, e: Event) returns (entered: bool)
      requires Valid() && id !in callers && e.id == id && (e.StartPrepare? || e.StartCleanup?)
      modifies this
      ensures Valid() && old(events) <= events
      ensures if entered then id in callers && callers[id] ==
                if e.StartPrepare? then PrepareCheck(e.owner) else CleanCheck(e.owner)
              else id !in callers
      ensures calm ==> (entered <==> old(lock) == None)
      ensures calm && entered ==> Now() == Step(old(Now()), e)
    {
      Others(id);
      entered := lock == None;
      if entered { Perform(e); }
    }

    /** `runLensKsPrepare`. */
    method RunPrepare(id: nat, owner: nat, now: nat) returns (success: bool)
      requires Valid() && id !in callers
      modifies this
      ensures Valid() && old(events) <= events
      ensures success ==> id in callers && callers[id] == Prepared
      ensures calm && old(lock) == None ==> (success <==> Preparable(old(disk), owner))
      ensures calm && success ==> disk == old(disk).(identity := Claimed(owner), workspace := true)
    {
      success := Enter(id, StartPrepare(id, owner));
      if !success { return; }
      while !Finished(callers[id])
        invariant Valid() && old(events) <= events && id in callers && Preparing(callers[id])
        invariant calm && old(lock) == None ==> PrepareProgress(old(disk), disk, owner, callers[id])
        decreases Remaining(callers[id])
      {
        Act(id, now);
      }
      success := callers[id] == Prepared;
    }

    /** `runLensKsCleanup`.  Undisturbed, it succeeds from every state the protocol can reach, with the
        workspace gone for good, unless the identity file is half-written or names somebody else. */
    method RunCleanup(id: nat, owner: nat, now: nat) returns (success: bool)
      requires Valid() && id !in callers
      modifies this
      ensures Valid() && old(events) <= events
      ensures success ==> disk.tombstone.Retired? && Bare(disk)
      ensures calm && old(lock) == None ==> (success <==> Cleanable(old(disk), owner))
      ensures calm && success ==> disk.tombstone == RetiredTombstone(old(disk).tombstone, owner, now)
    {
      success := Enter(id, StartCleanup(id, owner));
      if !success { return; }
      while !Finished(callers[id])
        invariant Valid() && old(events) <= events && id in callers
        invariant Preparing(callers[id]) ==> callers[id].Failed?
        invariant calm && old(lock) == None ==> CleanProgress(old(disk), disk, owner, now, callers[id])
        invariant calm ==> lock == if InLock(callers[id]) then Some(id) else None
        decreases Remaining(callers[id])
      {
        Act(id, now);
      }
      success := callers[id] == Cleaned;
    }
  }

  /** How far an undisturbed prepare has come. */
  ghost predicate PrepareProgress(from: Disk, d: Disk, owner: nat, c: Caller) {
    match c
    case PrepareCheck(o) => d == from && o == owner
    case PrepareClaim(o) => d == from && o == owner && Preparable(from, owner)
    case PrepareFill(o) => d == from.(identity := Corrupt) && o == owner && Preparable(from, owner)
    case PrepareEnsure(o) => d == from.(identity := Claimed(owner)) && o == owner && Preparable(from, owner)
    case Prepared => d == from.(identity := Claimed(owner), workspace := true) && Preparable(from, owner)
    case Failed => d == from && !Preparable(from, owner)
    case _ => false
  }

  /** How far an undisturbed cleanup has come. */
  ghost predicate CleanProgress(from: Disk, d: Disk, owner: nat, now: nat, c: Caller) {
    match c
    case CleanCheck(o) => d == from && o == owner
    case CleanRetire(o, w, t) => d == from && o == owner && w == d.workspace && t == d.trash && Cleanable(from, owner)
    case Cleaned => Cleanable(from, owner) && d.tombstone == RetiredTombstone(from.tombstone, owner, now)
    case Failed => d == from && !Cleanable(from, owner)
    case CleanRename(o) => o == owner && Retiring(from, d, owner, now)
    case CleanDelete(o) => o == owner && Retiring(from, d, owner, now)
    case CleanWait(o) => o == owner && Retiring(from, d, owner, now)
    case CleanFinal(o) => o == owner && Retiring(from, d, owner, now)
    case CleanForget(o) => o == owner && Retiring(from, d, owner, now)
    case CleanSeal(o) => o == owner && Retiring(from, d, owner, now)
    case _ => false
  }

  ghost predicate Retiring(from: Disk, d: Disk, owner: nat, now: nat) {
    Cleanable(from, owner) && d.tombstone == RetiringTombstone(from.tombstone, owner, now)
  }
}
