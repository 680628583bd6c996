/** The configure command, its rollback and the two recoveries, step by step.

    Every operation answers `Ok`, `Err`, or `Crash`: the process dies in it, with or without its effect.
    Whatever they answer, a `Node` takes only legal moves (Transaction.dfy), so the lemmas about runs hold
    at every point of every command, including the points where it is cut short. */
module Configure {
  import opened Wrappers
  import opened Transaction

  datatype Outcome = Ok | Err | Crash

  /** `Any`: every operation may fail, lose its answer or be the process's last.  `Calm`: none does.  `Unlucky`:
      none does, except that the new connection is never verified, that the Agent cannot be stopped once agent.env
      has changed, and, if `dies`, that the process dies while it removes its lock directory. */
  datatype Conditions = Any | Calm | Unlucky(dies: bool)

  const DEFAULT_MODE := 384
  const STOP_POLLS := 300

  function ModeOf(f: File): nat {
    if f.Absent? then DEFAULT_MODE else f.mode
  }

  function DataOf(f: File): string {
    if f.Absent? then "" else f.data
  }

  /** The paths `configure` computes new content for: agent.env always, config.json when it exists, and
      on a gateway lensnode.env and docker-compose.yml. */
  predicate Updated(saved: seq<File>, i: nat)
    requires i < |saved|
  {
    i == 0 || (i == 1 && saved[1].Present?) || (2 <= i < FINGERPRINT)
  }

  /** New content for a path, computed from the content of a file.  A fingerprint is computed from
      lensnode.env, every other content from the file it replaces. */
  type Patch = (nat, string) -> string

  function NewContent(saved: seq<File>, patch: Patch, i: nat): string
    requires i < |saved|
  {
    patch(i, DataOf(saved[if i == FINGERPRINT then LENS_ENV else i]))
  }

  /** The file a successful change leaves at path `i`. */
  function TargetFile(saved: seq<File>, patch: Patch, writer: int, i: nat): File
    requires i < |saved|
  {
    if i == FINGERPRINT || Updated(saved, i) then
      Present(NewContent(saved, patch, i), ModeOf(saved[i]), if saved[i].Present? then saved[i].owner else writer)
    else saved[i]
  }

  /** Every content the command would write is there already. */
  predicate Current(saved: seq<File>, patch: Patch) {
    forall i | 0 <= i < |saved| && Updated(saved, i) :: NewContent(saved, patch, i) == DataOf(saved[i])
  }

  /** Every path of `next` is what a change of `base` leaves there. */
  ghost predicate IsTarget(base: seq<File>, next: seq<File>, gateway: bool, patch: Patch, writer: int) {
    && |base| == |next| == GATEWAY_PATHS
    && forall j | 0 <= j < GATEWAY_PATHS :: next[j] ==
         if j < PathCount(gateway) then TargetFile(base[..PathCount(gateway)], patch, writer, j) else base[j]
  }

  /** From version `from` on, each is the target of the one before, for one of the requests. */
  ghost predicate Lineage(
    versions: seq<seq<File>>, from: nat, rounds: nat, patches: nat -> Patch, writer: int)
  {
    forall k | 0 < k < |versions| && from <= k :: Requested(versions[k - 1], versions[k], rounds, patches, writer)
  }

  ghost predicate Requested(base: seq<File>, next: seq<File>, rounds: nat, patches: nat -> Patch, writer: int) {
    exists p: nat, gateway: bool :: p < rounds && MadeBy(base, next, patches, p, gateway, writer)
  }

  ghost predicate MadeBy(
    base: seq<File>, next: seq<File>, patches: nat -> Patch, p: nat, gateway: bool, writer: int)
  {
    IsTarget(base, next, gateway, patches(p), writer)
  }

  /** Patching the contents a change of `base` writes changes nothing more. */
  predicate SettlesAtOnce(base: seq<File>, gateway: bool, patch: Patch) {
    |base| == GATEWAY_PATHS &&
    var saved := base[..PathCount(gateway)];
    forall i | 0 <= i < |saved| && Updated(saved, i) ::
      patch(i, NewContent(saved, patch, i)) == NewContent(saved, patch, i)
  }

  /** A target is current whenever patching its contents changes nothing. */
  lemma TargetIsCurrent(saved: seq<File>, target: seq<File>, patch: Patch, writer: int)
    requires forall i | 0 <= i < |saved| && Updated(saved, i) ::
               patch(i, NewContent(saved, patch, i)) == NewContent(saved, patch, i)
    requires |target| == |saved| && forall i | 0 <= i < |saved| :: target[i] == TargetFile(saved, patch, writer, i)
    ensures Current(target, patch)
  {
    forall i | 0 <= i < |saved| && Updated(target, i) ensures NewContent(target, patch, i) == DataOf(target[i]) {
      assert Updated(saved, i);
    }
  }

  /** What a command starts from. */
  datatype Stand = Stand(state: Option<Record>, files: seq<File>, versions: seq<seq<File>>, overwrites: nat)

  class Node {
    var files: seq<File>
    var state: Option<Record>
    var agentUp: bool
    var lensUp: bool
    var lock: Lock
    const writer: int   // the owner a file gets when this process writes it
    var conditions: Conditions
    ghost var noted: Option<Record>
    ghost var moves: seq<Move>
    ghost var versions: seq<seq<File>>  // what a recovery would have left so far, oldest first
    ghost var boots: nat                // file changes made by a daemon's own recovery
    ghost var overwrites: nat           // records written over one that was still there
    ghost const start: World

    ghost function Now(): World
      reads `files, `state, `agentUp, `lensUp, `lock, `noted
    {
      World(files, state, agentUp, lensUp, lock, noted)
    }

    ghost function Standing(): Stand
      reads `state, `files, `versions, `overwrites
    {
      Stand(state, files, versions, overwrites)
    }

    /** The moves so far are legal and lead to `w`. */
    ghost predicate History(w: World)
      reads `moves, `versions, `boots, `overwrites
    {
      && Inv(start) && LegalRun(start, moves) && Run(start, moves) == w
      && versions == Versions(start, moves) && boots == BootTouches(moves) && overwrites == Overwrites(moves)
    }

    ghost predicate Valid()
      reads `files, `state, `agentUp, `lensUp, `lock, `noted, `moves, `versions, `boots, `overwrites
    {
      History(Now()) && Inv(Now()) && versions != [] && versions[|versions| - 1] == Committed(Now())
    }

    /** Still valid, with the past kept. */
    twostate predicate Continued()
      reads this
    {
      Valid() && old(moves) <= moves
    }

    predicate Steady()
      reads `conditions
    {
      conditions != Any
    }

    predicate EnvChanged()
      reads `files, `state
    {
      state.Some? && |files| > 0 && |state.value.files| > 0 && files[0] != state.value.files[0]
    }

    /** The Agent cannot be stopped. */
    predicate Stuck()
      reads `conditions, `files, `state
    {
      conditions.Unlucky? && EnvChanged()
    }

    constructor (saved: seq<File>, agent: bool, lens: bool, writer: int, conditions: Conditions)
      requires |saved| == GATEWAY_PATHS
      ensures Valid() && moves == [] && this.conditions == conditions
      ensures Now() == World(saved, None, agent, lens, Free, None)
    {
      files, state, agentUp, lensUp, lock := saved, None, agent, lens, Free;
      this.writer, this.conditions := writer, conditions;
      noted, moves, versions, boots, overwrites := None, [], [saved], 0, 0;
      start := World(saved, None, agent, lens, Free, None);
    }

    /** One move has just been made. */
    ghost method Moved(from: World, m: Move)
      requires History(from) && Inv(from) && Legal(from, m) && Now() == Apply(from, m)
      modifies `moves, `versions, `boots, `overwrites
      ensures Continued() && moves == old(moves) + [m]
      ensures versions == if Settles(m) then old(versions) + [from.files] else old(versions)
      ensures boots == old(boots) + if m.Touch? && m.boot then 1 else 0
      ensures overwrites == old(overwrites) + if m.Overwrite? then 1 else 0
    {
      hide Run, LegalRun, Versions, BootTouches, Overwrites, Legal, Apply, Inv;
      Extend(start, moves, m);
      RunKeepsInv(start, moves + [m]);
      moves := moves + [m];
      versions := if Settles(m) then versions + [from.files] else versions;
      boots := boots + if m.Touch? && m.boot then 1 else 0;
      overwrites := overwrites + if m.Overwrite? then 1 else 0;
    }

    /** Without a state file the files are the last committed version. */
    lemma AtRest()
      requires Valid()
      ensures versions != [] && |files| == GATEWAY_PATHS
      ensures state.None? ==> files == versions[|versions| - 1]
    {
      hide History;
    }

    /** A check with no effect on the managed world: HTTP, SQLite, parsing, idleness. */
    method Check() returns (r: Outcome)
      ensures Steady() ==> r == Ok
    {
      r := Ok;
      if !Steady() { r := *; }
    }

    /** The new Agent and engine connection is observed before the deadline. */
    method VerifyConnection() returns (r: Outcome)
      ensures conditions == Calm ==> r == Ok
      ensures conditions.Unlucky? ==> r == Err
    {
      r := Check();
      if conditions.Unlucky? { r := Err; }
    }

    // ---- The recovery state file ----

    /** The versions after a fresh record was written: if another one was still there, what it would have
        brought back is given up for the files as they are. */
    twostate predicate Over()
      reads this
    {
      if old(state).None? then versions == old(versions) && overwrites == old(overwrites)
      else versions == old(versions) + [old(files)] && overwrites == old(overwrites) + 1
    }

    /** A fresh record, or the current one with its phase advanced. */
    method SaveState(t: Record) returns (r: Outcome)
      requires Valid()
      requires if t.phase == Applying then state.Some? && t == state.value.(phase := Applying)
               else Snapshot(Now(), t)
      modifies `state, `noted, `moves, `versions, `boots, `overwrites
      ensures Continued() && (Steady() ==> r == Ok) && boots == old(boots)
      ensures r == Ok ==> state == Some(t) && (t.phase == Prepared ==> Over() && noted == Some(t))
      ensures t.phase == Applying ==>
                versions == old(versions) && overwrites == old(overwrites) && noted == old(noted)
                && (state == old(state) || state == Some(t))
      ensures (state == old(state) && noted == old(noted) && versions == old(versions) &&
               overwrites == old(overwrites))
              || (t.phase == Prepared ==> state == Some(t) && noted == Some(t) && Over())
    {
      hide History;
      r := Check();
      var written := r == Ok;
      if !written { written := *; }
      if written {
        ghost var from := Now();
        ghost var m := if t.phase == Applying then Advance else if state.None? then Begin(t) else Overwrite(t);
        if t.phase == Prepared { noted := Some(t); }
        state := Some(t);
        Moved(from, m);
      }
    }

    /** `os.Remove` on the state file: a failed unlink leaves it in place. */
    method RemoveState(ghost commit: bool) returns (r: Outcome)
      requires Valid()
      requires state.Some? && (if commit then state.value.phase == Applying else Committed(Now()) == files)
      modifies `state, `moves, `versions, `boots, `overwrites
      ensures Continued() && (Steady() ==> r == Ok) && boots == old(boots) && overwrites == old(overwrites)
      ensures state == if r == Ok then None else if r == Err then old(state) else state
      ensures state == old(state) || state == None
      ensures versions == if commit && state == None then old(versions) + [files] else old(versions)
    {
      hide History;
      r := Check();
      var removed := r == Ok;
      if r == Crash { removed := *; }
      if removed {
        ghost var from := Now();
        state := None;
        Moved(from, if commit then Commit else Abandon);
      }
    }

    // ---- The managed files ----

    method Touched(i: nat, f: File, ghost boot: bool) returns (r: Outcome)
      requires Valid() && Legal(Now(), Touch(i, f, boot))
      modifies `files, `moves, `versions, `boots, `overwrites
      ensures Touching(boot) && (Steady() ==> r == Ok)
      ensures files == old(files)[i := f] || (r != Ok && files == old(files))
    {
      hide History, Inv;
      r := Check();
      var done := r == Ok;
      if !done { done := *; }
      if done {
        ghost var from := Now();
        files := files[i := f];
        Moved(from, Touch(i, f, boot));
      }
    }

    /** Files may have changed, and nothing else. */
    twostate predicate Touching(boot: bool)
      reads this
    {
      Continued() && versions == old(versions) && overwrites == old(overwrites) && (!boot ==> boots == old(boots))
    }

    /** Components or the lock may have changed, and nothing else. */
    twostate predicate Moving()
      reads this
    {
      Continued() && versions == old(versions) && overwrites == old(overwrites) && boots == old(boots)
    }

    /** `atomicfile.Write`: the content and mode change in one step; the owner becomes this process's. */
    method WriteFile(i: nat, data: string, mode: nat, ghost boot: bool) returns (r: Outcome)
      requires Valid() && Legal(Now(), Touch(i, Present(data, mode, writer), boot))
      modifies `files, `moves, `versions, `boots, `overwrites
      ensures Touching(boot) && (Steady() ==> r == Ok)
      ensures files == old(files)[i := Present(data, mode, writer)] || (r != Ok && files == old(files))
    {
      r := Touched(i, Present(data, mode, writer), boot);
    }

    method RestoreOwner(i: nat, owner: int, ghost boot: bool) returns (r: Outcome)
      requires Valid() && state.Some? && i < |state.value.files| && files[i].Present?
      modifies `files, `moves, `versions, `boots, `overwrites
      ensures Touching(boot) && (Steady() ==> r == Ok)
      ensures files == old(files)[i := old(files[i]).(owner := owner)] || (r != Ok && files == old(files))
    {
      r := Touched(i, files[i].(owner := owner), boot);
    }

    /** What `restore` relies on: the record is on disk, and its files may be written back. */
    ghost predicate Restorable(boot: bool)
      reads this
    {
      state.Some? && (boot || state.value.phase == Prepared || Quiesced(Now(), state.value))
    }

    /** One turn of the loop in `restore`. */
    method RestoreFile(k: nat, f: File, ghost boot: bool) returns (r: Outcome)
      requires Valid() && Restorable(boot) && k < |state.value.files| && f == state.value.files[k]
      modifies `files, `moves, `versions, `boots, `overwrites
      ensures Touching(boot) && (Steady() ==> r == Ok)
      ensures files == old(files)[k := files[k]]
      ensures r == Ok ==> files[k] == f
    {
      if f.Present? {
        r := WriteFile(k, f.data, f.mode, boot);
        if r == Ok { r := RestoreOwner(k, f.owner, boot); }
      } else {
        r := Touched(k, Absent, boot);
      }
    }

    /** `restore`: every file is tried, and one failure fails the whole. */
    method Restore(ghost boot: bool) returns (r: Outcome)
      requires Valid() && Restorable(boot)
      modifies `files, `moves, `versions, `boots, `overwrites
      ensures Touching(boot) && (Steady() ==> r == Ok)
      ensures r == Ok ==> versions != [] && files == versions[|versions| - 1] == Committed(Now())
    {
      hide History, Inv, Committed, Decodable;
      NotedIsState();
      r := Ok;
      var saved := state.value.files;
      RecordFits();
      for k := 0 to |saved|
        invariant Touching(boot) && |files| == GATEWAY_PATHS
        invariant r != Crash && (Steady() ==> r == Ok)
        invariant r == Ok ==> forall j | 0 <= j < k :: files[j] == saved[j]
      {
        var e := RestoreFile(k, saved[k], boot);
        if e == Crash { return Crash; }
        if e == Err { r := Err; }
      }
      if r == Ok { AllRestored(); }
    }

    lemma RecordFits()
      requires Valid() && state.Some?
      ensures |state.value.files| <= |files| == GATEWAY_PATHS
    {
      hide History;
    }

    lemma AllRestored()
      requires state.Some? && |state.value.files| <= |files|
      requires forall j | 0 <= j < |state.value.files| :: files[j] == state.value.files[j]
      ensures Committed(Now()) == files
    {
    }

    // ---- Components ----

    method SetAgent(up: bool)
      requires Valid() && (up && !agentUp ==> noted.Some? && noted.value.agentRunning)
      modifies `agentUp, `moves, `versions, `boots, `overwrites
      ensures Moving() && agentUp == up
    {
      hide History;
      ghost var from := Now();
      agentUp := up;
      Moved(from, Components(up, lensUp));
    }

    method SetLens(up: bool)
      requires Valid() && (up && !lensUp ==> noted.Some? && noted.value.lensRunning)
      modifies `lensUp, `moves, `versions, `boots, `overwrites
      ensures Moving() && lensUp == up
    {
      hide History;
      ghost var from := Now();
      lensUp := up;
      Moved(from, Components(agentUp, up));
    }

    /** `agentService`: a command that did not succeed may still have acted; a successful stop need not
        have finished. */
    method AgentService(up: bool) returns (r: Outcome)
      requires Valid() && (up ==> noted.Some? && noted.value.agentRunning)
      modifies `agentUp, `moves, `versions, `boots, `overwrites
      ensures Moving()
      ensures if Stuck() && !up then r == Err else Steady() ==> r == Ok
      ensures agentUp == old(agentUp) || agentUp == up
      ensures r == Ok && (up || Steady()) ==> agentUp == up
    {
      hide History;
      r := Check();
      if Stuck() && !up { r := Err; }
      var acted := r == Ok && (up || Steady());
      if !acted { acted := *; }
      if acted { SetAgent(up); }
    }

    /** `applyLens`: the container is recreated, and started only on request. */
    method ApplyLens(up: bool) returns (r: Outcome)
      requires Valid() && (up ==> noted.Some? && noted.value.lensRunning)
      modifies `lensUp, `moves, `versions, `boots, `overwrites
      ensures Moving() && (Steady() ==> r == Ok)
      ensures lensUp ==> old(lensUp) || up
      ensures r == Ok ==> lensUp == up
    {
      r := Check();
      var lens := up;
      if r != Ok { lens := *; lens := lens && (lensUp || up); }
      SetLens(lens);
    }

    method StopLens() returns (r: Outcome)
      requires Valid()
      modifies `lensUp, `moves, `versions, `boots, `overwrites
      ensures Moving() && (Steady() ==> r == Ok && !lensUp) && (lensUp ==> old(lensUp))
    {
      r := Check();
      var stopped := Steady();
      if !stopped { stopped := *; }
      if stopped { SetLens(false); }
    }

    method AgentRunning() returns (r: Outcome, up: bool)
      ensures (r == Ok ==> up == agentUp) && (Steady() ==> r == Ok)
    {
      r := Check();
      up := agentUp;
      if r != Ok { up := *; }
    }

    method LensRunning() returns (r: Outcome, up: bool)
      ensures (r == Ok ==> up == lensUp) && (Steady() ==> r == Ok)
    {
      r := Check();
      up := lensUp;
      if r != Ok { up := *; }
    }

    /** `stopAgent` with its `waitStopped` poll: success means it was seen stopped. */
    method StopAgent() returns (r: Outcome)
      requires Valid()
      modifies `agentUp, `moves, `versions, `boots, `overwrites
      ensures Moving() && (agentUp ==> old(agentUp))
      ensures if Stuck() then r == Err else Steady() ==> r == Ok
      ensures r == Ok ==> !agentUp
    {
      r := AgentService(false);
      if r != Ok { return; }
      for k := 0 to STOP_POLLS
        invariant Moving() && (agentUp ==> old(agentUp))
        invariant !Stuck() && (Steady() ==> k == 0 && !agentUp)
      {
        var up;
        r, up := AgentRunning();
        if r != Ok || !up { return; }
        if * { SetAgent(false); }  // it winds down between two polls
      }
      r := Err;
    }

    /** `stopAIEngine`, likewise. */
    method StopAIEngine() returns (r: Outcome)
      requires Valid()
      modifies `lensUp, `moves, `versions, `boots, `overwrites
      ensures Moving() && (Steady() ==> r == Ok) && (lensUp ==> old(lensUp))
      ensures r == Ok ==> !lensUp
    {
      r := StopLens();
      if r != Ok { return; }
      for k := 0 to STOP_POLLS
        invariant Moving() && (lensUp ==> old(lensUp))
        invariant Steady() ==> k == 0 && !lensUp
      {
        var up;
        r, up := LensRunning();
        if r != Ok || !up { return; }
        if * { SetLens(false); }
      }
      r := Err;
    }

    // ---- The lifecycle lock ----

    method LockTo(l: Lock)
      requires Valid()
      modifies `lock, `moves, `versions, `boots, `overwrites
      ensures Moving() && lock == l
    {
      hide History;
      ghost var from := Now();
      lock := l;
      Moved(from, Move.LockTo(l));
    }

    /** `os.Mkdir` on the lock directory. */
    method MakeLock() returns (r: Outcome)
      requires Valid()
      modifies `lock, `moves, `versions, `boots, `overwrites
      ensures Moving()
      ensures r == Ok ==> old(lock) == Free && lock == Unreadable
      ensures r == Err || old(lock) != Free ==> lock == old(lock)
      ensures Steady() ==> r == if old(lock) == Free then Ok else Err
    {
      hide History;
      r := Check();
      var made := r == Ok;
      if r == Crash { made := *; }
      if lock != Free {
        if r == Ok { r := Err; }
      } else if made {
        LockTo(Unreadable);
      }
    }

    /** The operation and pid files inside it. */
    method FillLock(pid: nat) returns (r: Outcome)
      requires Valid() && lock == Unreadable
      modifies `lock, `moves, `versions, `boots, `overwrites
      ensures Moving() && (Steady() ==> r == Ok)
      ensures if r == Ok then lock == Held(pid) else lock == Held(pid) || lock == old(lock)
    {
      hide History;
      r := Check();
      var filled := r == Ok;
      if !filled { filled := *; }
      if filled { LockTo(Held(pid)); }
    }

    /** `os.RemoveAll` on the lock directory: interrupted, it may have taken the pid file and not the
        directory. */
    method RemoveLock() returns (r: Outcome)
      requires Valid()
      modifies `lock, `moves, `versions, `boots, `overwrites
      ensures Moving()
      ensures if conditions == Unlucky(true) then r == Crash && (old(lock) != Free ==> lock == Unreadable)
              else Steady() ==> r == Ok
      ensures r == Ok ==> lock == Free
    {
      hide History;
      r := Check();
      if conditions == Unlucky(true) {
        r := Crash;
        if lock != Free { LockTo(Unreadable); }
      } else if r == Ok {
        LockTo(Free);
      } else if lock != Free {
        if * { LockTo(Unreadable); } else if * { LockTo(Free); }
      }
    }

    // ---- Recovery ----

    /** A state file beside a lock directory that nobody can read. */
    predicate Stranded()
      reads `state, `lock
    {
      state.Some? && lock == Unreadable
    }

    /** `recoverConnection`.  `Valid` says that any record on disk decodes, so the check of `decodeRecovery`
        never refuses one of this program's own records.  In calm conditions it succeeds exactly when there is
        nothing for it to do or the lock, if any, can be read. */
    method RecoverConnection(ownerAlive: bool, ghost boot: bool) returns (r: Outcome)
      requires Valid()
      requires state.Some? && !ownerAlive ==> Restorable(boot)
      modifies `files, `state, `lensUp, `lock, `moves, `versions, `boots, `overwrites
      ensures Touching(boot)
      ensures state == old(state) || state == None
      ensures old(state.None?) || ownerAlive ==> Now() == old(Now()) && moves == old(moves) && boots == old(boots)
      ensures lensUp ==> old(lensUp) || (old(state.Some?) && old(state.value.lensRunning))
      ensures r == Ok && !ownerAlive ==> state == None && files == versions[|versions| - 1]
      ensures r == Ok && !ownerAlive && old(state.Some?) ==> Recovered(old(state.value), old(lock))
      ensures old(Stranded()) ==> Stranded() && (r == Ok ==> ownerAlive)
      ensures conditions == Calm ==> (r == Ok <==> old(state.None?) || ownerAlive || old(lock) != Unreadable)
    {
      hide History, Inv;
      AtRest();
      if state.None? { return Ok; }
      r := Check();
      if r != Ok { return; }
      var t := state.value;
      if ownerAlive { return Ok; }
      if t.gateway {
        r := Check();  // lockLens
        if r != Ok { return; }
      }
      r := RestoreOriginal(boot);
      if r != Ok { return; }
      r := FinishRecovery(t.pid);
    }

    /** The files, and on a gateway whose change had begun the engine, as they were. */
    method RestoreOriginal(ghost boot: bool) returns (r: Outcome)
      requires Valid() && Restorable(boot)
      modifies `files, `lensUp, `moves, `versions, `boots, `overwrites
      ensures Touching(boot) && (Steady() ==> r == Ok)
      ensures lensUp ==> old(lensUp) || state.value.lensRunning
      ensures r == Ok ==> files == versions[|versions| - 1] == Committed(Now())
      ensures r == Ok && state.value.gateway && state.value.phase == Applying ==> lensUp == state.value.lensRunning
    {
      hide History, Inv;
      NotedIsState();
      r := Restore(boot);
      if r == Ok && state.value.gateway && state.value.phase != Prepared {
        r := ApplyLens(state.value.lensRunning);
      }
    }

    /** The last record that reached the disk is the one that is there, but for its phase. */
    lemma NotedIsState()
      requires Valid() && state.Some?
      ensures noted.Some? && noted.value.(phase := Applying) == state.value.(phase := Applying)
      ensures Decodable(state.value) && |files| == GATEWAY_PATHS
    {
      hide History;
    }

    /** After a successful recovery of `t`: the engine is as recorded, and a lock of the dead owner is gone
        while any other lock is left alone. */
    ghost predicate Recovered(t: Record, was: Lock)
      reads this
    {
      && (t.gateway && t.phase == Applying ==> lensUp == t.lensRunning)
      && lock == if was == Held(t.pid) then Free else was
    }

    /** The end of `recoverConnection`: the dead owner's lock, then the state file. */
    method FinishRecovery(pid: nat) returns (r: Outcome)
      requires Valid() && state.Some? && Committed(Now()) == files
      modifies `state, `lock, `moves, `versions, `boots, `overwrites
      ensures Moving()
      ensures state == old(state) || state == None
      ensures r == Ok ==> state == None && lock == if old(lock) == Held(pid) then Free else old(lock)
      ensures old(lock) == Unreadable ==> r != Ok && state == old(state) && lock == old(lock)
      ensures conditions == Calm ==> r == if old(lock) == Unreadable then Err else Ok
    {
      hide History, Inv;
      if lock == Unreadable { return Err; }
      r := Check();
      if r != Ok { return; }
      if lock == Held(pid) {
        r := RemoveLock();
        if r != Ok { return; }
      }
      r := RemoveState(false);
    }

    /** `recoverForCommand`: once the transaction had left "prepared" the recorded components are stopped
        first, and a recorded agent is started again afterwards. */
    method RecoverForCommand(ownerAlive: bool) returns (r: Outcome)
      requires Valid()
      modifies `files, `state, `agentUp, `lensUp, `lock, `moves, `versions, `boots, `overwrites
      ensures Moving()
      ensures state == old(state) || state == None
      ensures old(state.None?) || ownerAlive ==> Now() == old(Now())
      ensures agentUp ==> old(agentUp) || (old(state.Some?) && old(state.value.agentRunning))
      ensures lensUp ==> old(lensUp) || (old(state.Some?) && old(state.value.lensRunning))
      ensures r == Ok && !ownerAlive ==> state == None && files == versions[|versions| - 1]
      ensures r == Ok && !ownerAlive && old(state.Some?) ==> Recovered(old(state.value), old(lock))
      ensures r == Ok && !ownerAlive && old(state.Some?) && old(state.value).phase == Applying ==>
                (old(state.value.agentRunning) ==> agentUp)
      ensures old(Stranded()) ==> Stranded() && (r == Ok ==> ownerAlive)
      ensures Steady() && (old(state.None?) || ownerAlive) ==> r == Ok
      ensures conditions == Calm ==> (r == Ok <==> old(state.None?) || ownerAlive || old(lock) != Unreadable)
    {
      hide History, Inv;
      AtRest();
      if state.None? { return Ok; }
      r := Check();
      if r != Ok || ownerAlive { return; }
      r := RecoverAbandoned();
    }

    /** `recoverForCommand` once it has seen a record whose owner is gone. */
    method RecoverAbandoned() returns (r: Outcome)
      requires Valid() && state.Some?
      modifies `files, `state, `agentUp, `lensUp, `lock, `moves, `versions, `boots, `overwrites
      ensures Moving()
      ensures state == old(state) || state == None
      ensures agentUp ==> old(agentUp) || old(state.value.agentRunning)
      ensures lensUp ==> old(lensUp) || old(state.value.lensRunning)
      ensures r == Ok ==> state == None && files == versions[|versions| - 1]
      ensures r == Ok ==> Recovered(old(state.value), old(lock))
      ensures r == Ok && old(state.value).phase == Applying && old(state.value.agentRunning) ==> agentUp
      ensures old(Stranded()) ==> Stranded() && r != Ok
      ensures conditions == Calm ==> (r == Ok <==> old(lock) != Unreadable)
    {
      hide History, Inv;
      var previous := state.value;
      NotedIsState();
      if previous.phase == Prepared {
        r := RecoverConnection(false, false);
        return;
      }
      r := Quiesce(previous);
      if r != Ok { return; }
      r := RecoverConnection(false, false);
      if r == Ok && previous.agentRunning { r := ResumeAgent(); }
    }

    /** Start the agent unless it is already running. */
    method ResumeAgent() returns (r: Outcome)
      requires Valid() && noted.Some? && noted.value.agentRunning
      modifies `agentUp, `moves, `versions, `boots, `overwrites
      ensures Moving() && (Steady() ==> r == Ok) && (old(agentUp) ==> agentUp)
      ensures r == Ok ==> agentUp
    {
      hide History, Inv;
      var up;
      r, up := AgentRunning();
      if r == Ok && !up { r := AgentService(true); }
    }

    /** Stop what the record calls running, giving up at the first failure. */
    method Quiesce(t: Record) returns (r: Outcome)
      requires Valid()
      modifies `agentUp, `lensUp, `moves, `versions, `boots, `overwrites
      ensures Moving() && (conditions == Calm ==> r == Ok)
      ensures (agentUp ==> old(agentUp)) && (lensUp ==> old(lensUp))
      ensures r == Ok ==> Quiesced(Now(), t)
    {
      hide History, Inv;
      r := Ok;
      if t.agentRunning {
        r := StopAgent();
        if r != Ok { return; }
      }
      if t.lensRunning { r := StopAIEngine(); }
    }

    // ---- The change itself ----

    /** Nothing runs that the record calls stopped. */
    ghost predicate Within(t: Record)
      reads `agentUp, `lensUp
    {
      (agentUp ==> t.agentRunning) && (t.gateway && lensUp ==> t.lensRunning)
    }

    /** Exactly what the record calls running runs. */
    ghost predicate AsRecorded(t: Record)
      reads `agentUp, `lensUp
    {
      agentUp == t.agentRunning && (t.gateway ==> lensUp == t.lensRunning)
    }

    /** The state file holds `t`, in either phase. */
    ghost predicate InHand(t: Record)
      reads `state
    {
      state.Some? && state.value.(phase := t.phase) == t && (t.lensRunning ==> t.gateway)
    }

    /** The new agent.env is in place, and no file is missing that was there. */
    ghost predicate HalfMade(was: seq<File>, patch: Patch)
      reads `files
    {
      && |files| == |was| > 0 && files[0].Present? && DataOf(files[0]) == patch(0, DataOf(was[0]))
      && forall j | 0 <= j < |was| && was[j].Present? :: files[j].Present?
    }

    /** The change is unlucky: it replaces agent.env under a running Agent. */
    ghost predicate Daring(t: Record, patch: Patch)
      reads `conditions
    {
      conditions.Unlucky? && t.agentRunning && |t.files| > 0 && NewContent(t.files, patch, 0) != DataOf(t.files[0])
    }

    /** `prepareWhenIdle`: the record is saved inside a database transaction, and taken back when that
        does not commit.  A failure to take it back is ignored. */
    method PrepareWhenIdle(t: Record) returns (r: Outcome)
      requires Valid() && Snapshot(Now(), t)
      modifies `state, `noted, `moves, `versions, `boots, `overwrites
      ensures Continued() && boots == old(boots) && (Steady() ==> r == Ok)
      ensures r == Ok ==> state == Some(t) && noted == Some(t) && Over()
      ensures (state == old(state) && versions == old(versions) && overwrites == old(overwrites))
              || ((state == Some(t) || state == None) && Over())
    {
      hide History, Inv;
      r := Check();
      if r != Ok { return; }
      r := SaveState(t);
      if r != Ok { return; }
      assert files == t.files + files[|t.files|..];
      r := Check();
      if r == Err {
        var undone := RemoveState(false);
        if undone == Crash { r := Crash; }
      }
    }

    /** The part of the change before any file is written. */
    method StopForChange(t: Record) returns (r: Outcome)
      requires Valid() && InHand(t) && Within(t)
      modifies `state, `noted, `agentUp, `lensUp, `moves, `versions, `boots, `overwrites
      ensures Moving() && InHand(t) && Within(t)
      ensures Steady() && !old(EnvChanged()) ==> r == Ok
      ensures r == Ok ==> state.value.phase == Applying && Quiesced(Now(), t)
    {
      hide History, Inv;
      r := SaveState(state.value.(phase := Applying));
      if r != Ok { return; }
      if t.agentRunning {
        r := StopAgent();
        if r != Ok { return; }
      }
      if t.gateway && t.lensRunning {
        r := Check();  // the target is still idle
        if r != Ok { return; }
        r := StopAIEngine();
        if r != Ok { return; }
      }
      r := Check();  // localIdle
    }

    /** One managed file replaced by its patched content, with its old mode and owner. */
    method UpdateFile(i: nat, data: string) returns (r: Outcome)
      requires Valid() && state.Some? && state.value.phase == Applying && i < |state.value.files|
      requires i == FINGERPRINT || Quiesced(Now(), state.value)
      requires i < |files| && files[i] == state.value.files[i]
      modifies `files, `moves, `versions, `boots, `overwrites
      ensures Touching(false) && (Steady() ==> r == Ok)
      ensures i < |files| == |old(files)| && files == old(files)[i := files[i]]
      ensures files[i].Present? || files[i] == old(files[i])
      ensures r == Ok ==>
                var f := old(files[i]);
                files[i] == Present(data, ModeOf(f), if f.Present? then f.owner else writer)
    {
      hide History, Inv;
      NotedIsState();
      var f := files[i];
      r := WriteFile(i, data, ModeOf(f), false);
      if r == Ok && f.Present? { r := RestoreOwner(i, f.owner, false); }
    }

    method WriteUpdates(t: Record, patch: Patch) returns (r: Outcome)
      requires Valid() && InHand(t) && state.value.phase == Applying && Quiesced(Now(), t)
      requires files[..|t.files|] == t.files
      modifies `files, `moves, `versions, `boots, `overwrites
      ensures Touching(false) && (Steady() ==> r == Ok)
      ensures r == Ok ==>
                forall j | 0 <= j < |files| :: files[j] ==
                  if j < |t.files| && j != FINGERPRINT then TargetFile(t.files, patch, writer, j)
                  else old(files[j])
      ensures |files| == |old(files)|
    {
      hide History, Inv;
      NotedIsState();
      r := Ok;
      for k := 0 to |t.files|
        invariant Touching(false) && r == Ok && |files| == GATEWAY_PATHS >= |t.files|
        invariant forall j | 0 <= j < |files| :: files[j] ==
                    if j < k && j != FINGERPRINT then TargetFile(t.files, patch, writer, j)
                    else old(files[j])
      {
        assert files[k] == t.files[k];
        if Updated(t.files, k) {
          r := UpdateFile(k, NewContent(t.files, patch, k));
          if r != Ok { return; }
        }
      }
    }

    /** Restart on the new files, record the applied fingerprint, verify the connection. */
    method Activate(t: Record, patch: Patch) returns (r: Outcome)
      requires Valid() && InHand(t) && state.value.phase == Applying && Within(t)
      requires t.gateway ==> files[FINGERPRINT] == t.files[FINGERPRINT]
      modifies `files, `agentUp, `lensUp, `moves, `versions, `boots, `overwrites
      ensures Touching(false) && Within(t) && (conditions == Calm ==> r == Ok)
      ensures conditions.Unlucky? && t.agentRunning ==> r == Err
      ensures |files| == |old(files)| && forall j | 0 <= j < |files| && j != FINGERPRINT :: files[j] == old(files)[j]
      ensures |files| == GATEWAY_PATHS && (old(files)[FINGERPRINT].Present? ==> files[FINGERPRINT].Present?)
      ensures r == Ok ==> AsRecorded(t)
      ensures r == Ok && !t.gateway ==> files == old(files)
      ensures r == Ok && t.gateway ==>
                files == old(files)[FINGERPRINT := TargetFile(t.files, patch, writer, FINGERPRINT)]
    {
      hide History, Inv, TargetFile, NewContent, Committed;
      TargetOfFingerprint(t.files, patch);
      NotedIsState();
      r := Check();  // the reloaded configuration is effective
      if r != Ok { return; }
      if t.gateway {
        r := ApplyLens(t.lensRunning);
        if r != Ok { return; }
        r := UpdateFile(FINGERPRINT, NewContent(t.files, patch, FINGERPRINT));
        if r != Ok { return; }
      }
      if t.agentRunning {
        r := AgentService(true);
        if r != Ok { return; }
      }
      if t.agentRunning || t.lensRunning { r := VerifyConnection(); }
    }

    lemma TargetOfFingerprint(saved: seq<File>, patch: Patch)
      ensures |saved| == GATEWAY_PATHS ==>
                var f := saved[FINGERPRINT];
                TargetFile(saved, patch, writer, FINGERPRINT) ==
                  Present(NewContent(saved, patch, FINGERPRINT), ModeOf(f), if f.Present? then f.owner else writer)
    {
    }

    /** What a committed change leaves. */
    ghost predicate Changed(base: seq<File>, t: Record, patch: Patch)
      requires |t.files| <= |base|
      reads `files
    {
      && |files| == |base|
      && forall j | 0 <= j < |base| :: files[j] ==
           if j < |t.files| then TargetFile(t.files, patch, writer, j) else base[j]
    }

    /** From the prepared record to the commit.  `filesChanged` is raised before the first write. */
    method Transact(t: Record, patch: Patch) returns (r: Outcome, filesChanged: bool)
      requires Valid() && InHand(t) && Within(t) && files == Committed(Now())
      modifies `files, `state, `noted, `agentUp, `lensUp, `moves, `versions, `boots, `overwrites
      ensures Continued() && boots == old(boots) && overwrites == old(overwrites) && Within(t)
      ensures conditions == Calm ==> r == Ok
      ensures Daring(t, patch) ==> r == Err && filesChanged && EnvChanged() && HalfMade(old(files), patch)
      ensures r == Ok ==> state == None && AsRecorded(t)
      ensures r == Err ==> InHand(t) && (filesChanged ==> state.value.phase == Applying)
      ensures r == Err && !filesChanged ==> files == old(files) == Committed(Now())
      ensures if r == Ok || versions != old(versions)
              then versions == old(versions) + [files] && Changed(old(files), t, patch)
                   && r != Err && state == None
              else versions == old(versions)
    {
      hide Valid, Changed, HalfMade, Committed, Quiesced, NewContent;
      NotedIsState();
      CommittedMeans(t);
      filesChanged := false;
      r := StopForChange(t);
      if r != Crash { CommittedMeans(t); }
      if r != Ok { return; }
      filesChanged := true;
      r := Replace(t, patch);
      if r == Ok { r := RemoveState(true); }
    }

    lemma CommittedMeans(t: Record)
      requires InHand(t) && |t.files| <= |files|
      ensures files == Committed(Now()) <==> files[..|t.files|] == t.files
    {
      if files[..|t.files|] == t.files {
        assert files == t.files + files[|t.files|..];
      }
    }

    /** The files and the restart of a change, up to its commit. */
    method Replace(t: Record, patch: Patch) returns (r: Outcome)
      requires Valid() && InHand(t) && state.value.phase == Applying && Quiesced(Now(), t) && Within(t)
      requires |t.files| <= |files| && files[..|t.files|] == t.files
      modifies `files, `agentUp, `lensUp, `moves, `versions, `boots, `overwrites
      ensures Touching(false) && Within(t) && (conditions == Calm ==> r == Ok)
      ensures Daring(t, patch) ==> r == Err && EnvChanged() && HalfMade(old(files), patch)
      ensures r == Ok ==> AsRecorded(t) && Changed(old(files), t, patch)
    {
      hide History, Inv, TargetFile, NewContent, Changed, HalfMade, EnvChanged, Committed, Quiesced;
      NotedIsState();
      assert t.gateway ==> files[FINGERPRINT] == t.files[FINGERPRINT];
      r := WriteUpdates(t, patch);
      if r == Ok {
        r := Activate(t, patch);
        NowHalfMade(old(files), t, patch);
        if r == Ok { NowChanged(old(files), t, patch); }
      }
    }

    lemma NowHalfMade(was: seq<File>, t: Record, patch: Patch)
      requires InHand(t) && Decodable(t) && |files| == |was| == GATEWAY_PATHS && t.files == was[..|t.files|]
      requires forall j | 0 <= j < |files| && j != FINGERPRINT :: files[j] ==
                 if j < |t.files| then TargetFile(t.files, patch, writer, j) else was[j]
      requires was[FINGERPRINT].Present? ==> files[FINGERPRINT].Present?
      ensures HalfMade(was, patch) && (Daring(t, patch) ==> EnvChanged())
    {
      assert files[0] == TargetFile(t.files, patch, writer, 0);
    }

    lemma NowChanged(was: seq<File>, t: Record, patch: Patch)
      requires Decodable(t) && |files| == |was| == GATEWAY_PATHS
      requires forall j | 0 <= j < |files| && j != FINGERPRINT :: files[j] ==
                 if j < |t.files| then TargetFile(t.files, patch, writer, j) else was[j]
      requires files[FINGERPRINT] ==
               if t.gateway then TargetFile(t.files, patch, writer, FINGERPRINT) else was[FINGERPRINT]
      ensures Changed(was, t, patch)
    {
    }

    /** `resumeOriginal`: only what was really stopped is started again. */
    method ResumeOriginal(t: Record) returns (r: Outcome)
      requires Valid() && InHand(t) && Within(t)
      modifies `agentUp, `lensUp, `moves, `versions, `boots, `overwrites
      ensures Moving() && Within(t) && (Steady() ==> r == Ok)
      ensures r == Ok ==> AsRecorded(t)
    {
      hide History, Inv;
      NotedIsState();
      r := Ok;
      if t.lensRunning {
        var up;
        r, up := LensRunning();
        if r == Ok && !up { r := ApplyLens(true); }
        if r != Ok { return; }
      }
      if t.agentRunning { r := ResumeAgent(); }
    }

    /** The deferred rollback.  `Ok` is a reported recovery: the original files, exactly the recorded
        components, no state file. */
    method Rollback(t: Record, filesChanged: bool) returns (r: Outcome)
      requires Valid() && InHand(t) && Within(t)
      requires if filesChanged then state.value.phase == Applying else files == Committed(Now())
      modifies `files, `state, `agentUp, `lensUp, `moves, `versions, `boots, `overwrites
      ensures Touching(false) && Within(t) && (conditions == Calm ==> r == Ok)
      ensures old(Stuck()) && filesChanged && t.agentRunning ==>
                r == Err && files == old(files) && state == old(state)
      ensures r == Ok ==> state == None && files == versions[|versions| - 1] && AsRecorded(t)
      ensures state == old(state) || state == None
    {
      hide History, Inv;
      if filesChanged {
        r := RollBackFiles(t);
      } else {
        r := ResumeOriginal(t);
        if r == Ok { r := RemoveState(false); }
      }
    }

    /** The rollback once files may have changed. */
    method RollBackFiles(t: Record) returns (r: Outcome)
      requires Valid() && InHand(t) && Within(t) && state.value.phase == Applying
      modifies `files, `state, `agentUp, `lensUp, `moves, `versions, `boots, `overwrites
      ensures Touching(false) && Within(t) && (conditions == Calm ==> r == Ok)
      ensures old(Stuck()) && t.agentRunning ==> r == Err && files == old(files) && state == old(state)
      ensures r == Ok ==> state == None && files == versions[|versions| - 1] && AsRecorded(t)
      ensures state == old(state) || state == None
    {
      hide Valid;
      r := StopForRollback(t);
      if r != Ok { return; }
      r := Restore(false);
      if r != Ok { return; }
      r := Restart(t);
      if r == Ok { r := RemoveState(false); }
    }

    /** Recreate the engine in its recorded state and start a recorded agent. */
    method Restart(t: Record) returns (r: Outcome)
      requires Valid() && InHand(t) && Within(t)
      modifies `agentUp, `lensUp, `moves, `versions, `boots, `overwrites
      ensures Moving() && Within(t) && (Steady() ==> r == Ok)
      ensures r == Ok ==> AsRecorded(t)
    {
      hide History, Inv;
      NotedIsState();
      r := Ok;
      if t.gateway {
        r := ApplyLens(t.lensRunning);
        if r != Ok { return; }
      }
      if t.agentRunning { r := AgentService(true); }
    }

    /** Both components are tried; either failure keeps the files as they are. */
    method StopForRollback(t: Record) returns (r: Outcome)
      requires Valid() && InHand(t) && Within(t)
      modifies `agentUp, `lensUp, `moves, `versions, `boots, `overwrites
      ensures Moving() && Within(t) && (conditions == Calm ==> r == Ok)
      ensures Stuck() && t.agentRunning ==> r == Err
      ensures r == Ok ==> Quiesced(Now(), t)
    {
      hide History, Inv;
      var agent, lens := Ok, Ok;
      if t.agentRunning { agent := StopAgent(); }
      if agent == Crash { return Crash; }
      if t.gateway && t.lensRunning { lens := StopAIEngine(); }
      r := if lens == Crash then Crash else if agent == Err then Err else lens;
    }

    // ---- The commands ----

    /** A live owner has already given up its lock while its record is still there: it failed to roll back and
        has not exited yet. */
    predicate Exposed(ownerAlive: bool)
      reads `state, `lock
    {
      state.Some? && ownerAlive && lock == Free
    }

    /** What a command starts from: a recovery brings back the last version, a live owner's files stay. */
    ghost function Base(ownerAlive: bool): seq<File>
      requires versions != []
      reads this
    {
      if ownerAlive then files else versions[|versions| - 1]
    }

    /** `configure` from its first check to the end of its deferred functions, for a process `pid`.
        `patch` stands for the new content of each path. */
    method Configure(pid: nat, gateway: bool, ownerAlive: bool, patch: Patch)
      returns (r: Outcome, changed: bool, restored: bool)
      requires Valid()
      modifies `files, `state, `noted, `agentUp, `lensUp, `lock, `moves, `versions, `boots, `overwrites
      ensures Continued() && boots == old(boots)
      // The originals of a record are given up only from an exposed start, and there also in calm conditions.
      ensures overwrites == old(overwrites) || (old(Exposed(ownerAlive)) && overwrites == old(overwrites) + 1)
      ensures conditions == Calm ==>
                (overwrites != old(overwrites) <==>
                   && old(Exposed(ownerAlive)) && Complete(old(files), gateway)
                   && !Current(old(files)[..PathCount(gateway)], patch))
      // Either a live owner's record was left alone and nothing done, or the outcome is settled.
      ensures if old(state.Some?) && ownerAlive && overwrites == old(overwrites)
              then Untouched(old(Standing()), r, changed, restored)
              else Settled(Before(old(versions), old(files), overwrites != old(overwrites)),
                           r, changed, restored, gateway, patch)
      ensures old(Stranded()) ==> Stranded() && r != Ok
      // In calm conditions the outcome is decided by what is there before.
      ensures conditions == Calm ==>
                (r == Ok <==>
                   && (old(lock) == Free ||
                       (old(state.Some?) && !ownerAlive && old(lock) == Held(old(state.value.pid))))
                   && Complete(old(Base(ownerAlive)), gateway))
      ensures conditions == Calm && r == Ok ==> lock == Free
      // One unlucky run: the change and its rollback both fail, and the state file stays.
      ensures conditions.Unlucky? && old(state.None?) && old(lock) == Free && old(agentUp) &&
              Complete(old(files), gateway) && patch(0, DataOf(old(files)[0])) != DataOf(old(files)[0]) ==>
                && state.Some? && HalfMade(old(files), patch) && !restored
                && if conditions.dies then r == Crash && lock == Unreadable else r == Err && lock == Free
    {
      hide Valid, Current, Installed, IsTarget, UpToDate, HalfMade, Complete;
      AtRest();
      changed, restored := false, false;
      r := Check();  // NormalizeServer
      if r != Ok { return; }
      r := RecoverForCommand(ownerAlive);
      if r != Ok { return; }
      r, changed, restored := ConfigureRecovered(pid, gateway, patch);
    }

    /** `configure` after its recovery step. */
    method ConfigureRecovered(pid: nat, gateway: bool, patch: Patch)
      returns (r: Outcome, changed: bool, restored: bool)
      requires Valid()
      modifies `files, `state, `noted, `agentUp, `lensUp, `lock, `moves, `versions, `boots, `overwrites
      ensures Continued() && boots == old(boots)
      ensures ConfiguredFrom(old(Standing()), r, changed, restored, gateway, patch)
      ensures overwrites != old(overwrites) ==> old(lock) == Free
      ensures old(lock) != Free ==> lock == old(lock) && r != Ok
      ensures conditions == Calm ==>
                && (r == Ok <==> old(lock) == Free && Complete(old(files), gateway)) && (r == Ok ==> lock == Free)
                && (overwrites != old(overwrites) <==>
                      && old(state.Some?) && old(lock) == Free && Complete(old(files), gateway)
                      && !Current(old(files)[..PathCount(gateway)], patch))
      ensures conditions.Unlucky? && old(lock) == Free && old(agentUp) &&
              Complete(old(files), gateway) && patch(0, DataOf(old(files)[0])) != DataOf(old(files)[0]) ==>
                && state.Some? && HalfMade(old(files), patch) && !restored
                && if conditions.dies then r == Crash && lock == Unreadable else r == Err && lock == Free
    {
      hide Valid, Current, Installed, IsTarget, UpToDate, HalfMade, Settled, Untouched, ConfiguredFrom;
      AtRest();
      changed, restored := false, false;
      ghost var was := Standing();
      r := Check();  // installed identity, no downgrade
      if r == Ok && files[0].Absent? { r := Err; }
      if r == Ok { r := MakeLock(); }
      if r != Ok {
        StoodStill(was, r, gateway, patch);
        return;
      }
      r, changed, restored := ConfigureLocked(pid, gateway, patch);
      OnlyOverARecord(was, r, changed, restored, gateway, patch);
      if r != Crash {
        var released := RemoveLock();
        if released == Crash {
          DeathIsNeutral(was, r, changed, restored, gateway, patch);
          r := Crash;
        }
      }
    }

    /** The versions a command starts from: with one more if it overwrote a record. */
    ghost function Before(was: seq<seq<File>>, files: seq<File>, over: bool): seq<seq<File>> {
      if over then was + [files] else was
    }

    /** A live owner's record, and everything it stands for, is as it was. */
    ghost predicate Untouched(
      was: Stand, r: Outcome, changed: bool, restored: bool)
      reads `files, `state, `versions
    {
      state == was.state && files == was.files && versions == was.versions && !restored && (r == Ok ==> !changed)
    }

    /** How a command may leave this node, starting from `was` after its recovery step. */
    ghost predicate ConfiguredFrom(
      was: Stand, r: Outcome, changed: bool, restored: bool, gateway: bool, patch: Patch)
      reads `files, `state, `versions, `overwrites, `noted, `agentUp, `lensUp
    {
      && (overwrites == was.overwrites || (was.state.Some? && overwrites == was.overwrites + 1))
      && if was.state.Some? && overwrites == was.overwrites
         then Untouched(was, r, changed, restored)
         else Settled(Before(was.versions, was.files, was.state.Some?), r, changed, restored, gateway, patch)
    }

    /** How a configure command that started from the versions `before` may leave this node.
        Success: no state file, and the files are the target, committed, or were already current; and a
        configuration that is already current is never changed.
        Failure: nothing committed, and a reported restoration is complete.
        Death: at most the one commit, and then everything is in place. */
    ghost predicate Settled(
      before: seq<seq<File>>, r: Outcome, changed: bool, restored: bool,
      gateway: bool, patch: Patch)
      reads `files, `state, `versions, `noted, `agentUp, `lensUp
    {
      match r
      case Ok =>
        && state == None && versions != [] && files == versions[|versions| - 1]
        && UpToDate(before, gateway, patch) == !changed
        && if changed then Installed(before, gateway, patch) else versions == before
      case Err =>
        && versions == before
        && (restored ==>
              && state == None && versions != [] && files == versions[|versions| - 1]
              && noted.Some? && AsRecorded(noted.value))
      case Crash =>
        versions == before || (state == None && Installed(before, gateway, patch))
    }

    /** The last version needed no change. */
    predicate UpToDate(before: seq<seq<File>>, gateway: bool, patch: Patch) {
      before != [] && |before[|before| - 1]| == GATEWAY_PATHS &&
      Current(before[|before| - 1][..PathCount(gateway)], patch)
    }

    /** An installed node has its agent.env, and a gateway its engine's three files. */
    predicate Complete(base: seq<File>, gateway: bool) {
      && |base| == GATEWAY_PATHS && base[0].Present?
      && (gateway ==> base[2].Present? && base[3].Present? && base[4].Present?)
    }

    /** The last version is the target computed from the one before. */
    ghost predicate Installed(before: seq<seq<File>>, gateway: bool, patch: Patch)
      reads `files, `versions
    {
      before != [] && versions == before + [files] && IsTarget(before[|before| - 1], files, gateway, patch, writer)
    }

    /** `configure` while it holds the lifecycle lock. */
    method ConfigureLocked(pid: nat, gateway: bool, patch: Patch)
      returns (r: Outcome, changed: bool, restored: bool)
      requires Valid() && lock == Unreadable && files[0].Present?
      modifies `files, `state, `noted, `agentUp, `lensUp, `lock, `moves, `versions, `boots, `overwrites
      ensures Continued() && boots == old(boots) && lock != Free
      ensures ConfiguredFrom(old(Standing()), r, changed, restored, gateway, patch)
      ensures conditions == Calm ==>
                && (r == Ok <==> Complete(old(files), gateway))
                && (overwrites != old(overwrites) <==>
                      && old(state.Some?) && Complete(old(files), gateway)
                      && !Current(old(files)[..PathCount(gateway)], patch))
      ensures conditions.Unlucky? && old(agentUp) && Complete(old(files), gateway) &&
              patch(0, DataOf(old(files)[0])) != DataOf(old(files)[0]) ==>
                r == Err && !restored && state.Some? && HalfMade(old(files), patch)
    {
      hide Valid, Current, IsTarget, ConfiguredFrom, Settled, Untouched, HalfMade;
      AtRest();
      changed, restored := false, false;
      ghost var was := Standing();
      var t;
      r, t := Examine(pid, gateway);
      if r != Ok {
        StoodStill(was, r, gateway, patch);
        return;
      }
      r, changed, restored := ChangeIfNeeded(t, patch);
    }

    /** Everything that is checked and read before anything is written but the lock. */
    method Examine(pid: nat, gateway: bool) returns (r: Outcome, t: Record)
      requires Valid() && lock == Unreadable && files[0].Present?
      modifies `lock, `moves, `versions, `boots, `overwrites
      ensures Moving() && lock != Free
      ensures Steady() ==> (r == Ok <==> Complete(files, gateway))
      ensures r == Ok ==>
                && Complete(files, gateway) && Snapshot(Now(), t) && AsRecorded(t)
                && t == Record(pid, Prepared, files[..PathCount(gateway)], agentUp, gateway && lensUp, gateway)
    {
      hide Valid;
      AtRest();
      t := Record(pid, Prepared, files[..PathCount(gateway)], false, false, gateway);
      r := FillLock(pid);
      if r != Ok { return; }
      r := Check();  // no pending upgrade, the target knows this node and is idle, so is this node
      if r != Ok { return; }
      if !Complete(files, gateway) { return Err, t; }
      r := Check();  // the contents to patch are as expected
      if r != Ok { return; }
      var agent, lens;
      r, agent, lens := ReadComponents(gateway);
      t := t.(agentRunning := agent, lensRunning := lens);
    }

    /** A current configuration is a no-op, never an implicit restart. */
    method ChangeIfNeeded(t: Record, patch: Patch) returns (r: Outcome, changed: bool, restored: bool)
      requires Valid() && Snapshot(Now(), t) && AsRecorded(t) && (t.lensRunning ==> t.gateway)
      modifies `files, `state, `noted, `agentUp, `lensUp, `moves, `versions, `boots, `overwrites
      ensures Continued() && boots == old(boots)
      ensures ConfiguredFrom(old(Standing()), r, changed, restored, t.gateway, patch)
      ensures conditions == Calm ==>
                r == Ok && (overwrites != old(overwrites) <==> old(state.Some?) && !Current(t.files, patch))
      ensures Daring(t, patch) ==> r == Err && !restored && state.Some? && HalfMade(old(files), patch)
    {
      hide Valid, Current, IsTarget, HalfMade, Changed;
      AtRest();
      changed, restored := false, false;
      EnvIsUpdated(t.files, patch);
      if Current(t.files, patch) { return Ok, false, false; }
      changed := true;
      r, restored := ChangePrepared(t, patch);
      ChangedIsTarget(old(files), t, patch);
    }

    lemma OnlyOverARecord(
      was: Stand, r: Outcome, changed: bool, restored: bool, gateway: bool, patch: Patch)
      requires ConfiguredFrom(was, r, changed, restored, gateway, patch)
      ensures overwrites == was.overwrites || (was.state.Some? && overwrites == was.overwrites + 1)
    {
    }

    /** Nothing was done, and the command did not succeed. */
    lemma StoodStill(
      was: Stand, r: Outcome, gateway: bool, patch: Patch)
      requires state == was.state && files == was.files && versions == was.versions && overwrites == was.overwrites
      requires r != Ok
      ensures ConfiguredFrom(was, r, false, false, gateway, patch)
    {
    }

    /** The process may die in what comes last. */
    lemma DeathIsNeutral(
      was: Stand, r: Outcome, changed: bool, restored: bool, gateway: bool, patch: Patch)
      requires ConfiguredFrom(was, r, changed, restored, gateway, patch)
      ensures ConfiguredFrom(was, Crash, changed, restored, gateway, patch)
    {
    }

    /** What runs: the engine on a gateway only, then the Agent. */
    method ReadComponents(gateway: bool) returns (r: Outcome, agent: bool, lens: bool)
      ensures Steady() ==> r == Ok
      ensures r == Ok ==> agent == agentUp && lens == (gateway && lensUp)
    {
      r, agent, lens := Ok, false, false;
      if gateway {
        r, lens := LensRunning();
        if r != Ok { return; }
      }
      r, agent := AgentRunning();
    }

    lemma EnvIsUpdated(saved: seq<File>, patch: Patch)
      requires saved != []
      ensures Current(saved, patch) ==> NewContent(saved, patch, 0) == DataOf(saved[0])
    {
    }

    lemma ChangedIsTarget(base: seq<File>, t: Record, patch: Patch)
      requires |base| == GATEWAY_PATHS && t.files == base[..PathCount(t.gateway)]
      ensures Changed(base, t, patch) ==> IsTarget(base, files, t.gateway, patch, writer)
    {
    }

    /** From the record in memory to the commit or the end of the deferred rollback. */
    method ChangePrepared(t: Record, patch: Patch)
      returns (r: Outcome, restored: bool)
      requires Valid() && Snapshot(Now(), t)
      requires AsRecorded(t) && (t.lensRunning ==> t.gateway)
      modifies `files, `state, `noted, `agentUp, `lensUp, `moves, `versions, `boots, `overwrites
      ensures Continued() && boots == old(boots)
      ensures overwrites == old(overwrites) || (old(state.Some?) && overwrites == old(overwrites) + 1)
      ensures old(state.Some?) && overwrites == old(overwrites) ==>
                state == old(state) && files == old(files) && versions == old(versions) && !restored && r != Ok
      ensures var before := Before(old(versions), old(files), overwrites != old(overwrites));
              && (r == Ok ==> state == None && versions != before)
              && (r == Err ==> versions == before)
              && (r == Err && restored ==>
                    state == None && files == versions[|versions| - 1] && noted.Some? && AsRecorded(noted.value))
              && (versions == before ||
                  (versions == before + [files] && state == None && Changed(old(files), t, patch)))
      ensures conditions == Calm ==> r == Ok
      ensures Daring(t, patch) ==> r == Err && !restored && state.Some? && HalfMade(old(files), patch)
    {
      hide Valid, Changed, Decodable, Committed;
      restored := false;
      r := Check();  // the backup copy
      if r != Ok { return; }
      RecordCovers(t);
      r := PrepareWhenIdle(t);
      if r != Ok { return; }
      RecordKept(t);
      r, restored := ChangeOrRollBack(t, patch);
    }

    lemma RecordCovers(t: Record)
      requires Snapshot(Now(), t)
      ensures |t.files| <= |files| && files == t.files + files[|t.files|..]
    {
    }

    lemma RecordKept(t: Record)
      requires state == Some(t) && |t.files| <= |files| && files == t.files + files[|t.files|..]
      ensures Committed(Now()) == files
    {
    }

    /** The change itself, and on a failure its rollback. */
    method ChangeOrRollBack(t: Record, patch: Patch) returns (r: Outcome, restored: bool)
      requires Valid() && InHand(t) && Within(t) && files == Committed(Now()) && |t.files| <= |files|
      modifies `files, `state, `noted, `agentUp, `lensUp, `moves, `versions, `boots, `overwrites
      ensures Continued() && boots == old(boots) && overwrites == old(overwrites)
      ensures r == Ok ==> state == None && versions != old(versions)
      ensures r == Err ==> versions == old(versions)
      ensures r == Err && restored ==>
                state == None && files == versions[|versions| - 1] && noted.Some? && AsRecorded(noted.value)
      ensures versions == old(versions) ||
              (versions == old(versions) + [files] && state == None && Changed(old(files), t, patch))
      ensures conditions == Calm ==> r == Ok
      ensures Daring(t, patch) ==> r == Err && !restored && state.Some? && HalfMade(old(files), patch)
    {
      hide Valid, Changed, Committed;
      restored := false;
      var filesChanged;
      r, filesChanged := Transact(t, patch);
      if r == Err {
        NotedIsState();
        AtRest();
        var rollback := Rollback(t, filesChanged);
        restored := rollback == Ok;
        if rollback == Crash { r := Crash; }
      }
    }

    /** What a successful command leaves needs no further change. */
    lemma AfterFirst(before: seq<seq<File>>, gateway: bool, patch: Patch, changed: bool)
      requires Settled(before, Ok, changed, false, gateway, patch)
      requires SettlesAtOnce(before[|before| - 1], gateway, patch)
      ensures UpToDate(versions, gateway, patch)
      ensures Complete(before[|before| - 1], gateway) ==> Complete(files, gateway)
    {
      if changed {
        var n := PathCount(gateway);
        TargetIsCurrent(before[|before| - 1][..n], files[..n], patch, writer);
      }
    }

    /** The same change asked for twice: when patching the patched contents changes nothing, the second command
        is a no-op. */
    method ConfigureAgain(pid: nat, gateway: bool, patch: Patch)
      returns (first: Outcome, second: Outcome, changed: bool)
      requires Valid() && state.None? && SettlesAtOnce(files, gateway, patch)
      modifies `files, `state, `noted, `agentUp, `lensUp, `lock, `moves, `versions, `boots, `overwrites
      ensures Continued()
      ensures first == Ok && second == Ok ==> !changed && versions[|versions| - 1] == files
      ensures first == Ok && second == Ok ==> |versions| <= |old(versions)| + 1
      ensures conditions == Calm && first == Ok ==> second == Ok
    {
      hide History, Inv;
      AtRest();
      changed := false;
      second := Err;
      ghost var before := versions;
      var written, restored;
      first, written, restored := Configure(pid, gateway, false, patch);
      if first != Ok { return; }
      AfterFirst(before, gateway, patch, written);
      assert versions[|versions| - 1] == files;
      second, changed, restored := Configure(pid, gateway, false, patch);
    }

    /** A recovery that is stranded: a configure command whose change and rollback fail dies in the removal of its
        lock, and whatever `later` conditions are like, no number of commands and daemon starts gets rid of the
        state file and the unreadable lock. */
    method StrandRecovery(
      pid: nat, gateway: bool, patch: Patch, rounds: nat, patches: nat -> Patch, later: Conditions)
      returns (r: Outcome)
      requires Valid() && state.None? && lock == Free && agentUp && Complete(files, gateway)
      requires patch(0, DataOf(files[0])) != DataOf(files[0])
      modifies this
      ensures Continued() && r == Crash && Stranded()
    {
      hide Valid, Installed, IsTarget, HalfMade, Untouched, Settled, Complete;
      var changed, restored;
      conditions := Unlucky(true);
      r, changed, restored := Configure(pid, gateway, false, patch);
      conditions := later;
      for k := 0 to rounds
        invariant Continued() && Stranded()
      {
        var other: bool, ownerAlive: bool := *, *;
        if {
          case true => var _, _, _ := Configure(k, other, ownerAlive, patches(k));
          case true => var _ := RecoverForCommand(ownerAlive);
          case true => var _ := RecoverConnection(ownerAlive, true);
        }
      }
    }

    /** Originals that are lost: a configure command fails with its rollback, gives up its lock, and before it
        exits a second command, with nothing failing, takes its half-made change for the original. */
    method LoseOriginals(pid: nat, next: nat, gateway: bool, patch: Patch, second: Patch)
      returns (first: Outcome, r: Outcome)
      requires Valid() && state.None? && lock == Free && agentUp && Complete(files, gateway)
      requires patch(0, DataOf(files[0])) != DataOf(files[0])
      requires second(0, patch(0, DataOf(files[0]))) != patch(0, DataOf(files[0]))
      modifies this
      ensures Continued() && first == Err && r == Ok && state == None
      ensures |versions| == |old(versions)| + 2 && old(versions) <= versions && versions[|versions| - 1] == files
      // What was kept as the original of the second change is what the first, which failed, had made.
      ensures var kept := versions[|old(versions)|];
              && kept != [] && old(files) != []
              && DataOf(kept[0]) == patch(0, DataOf(old(files)[0])) != DataOf(old(files)[0])
    {
      hide Valid, IsTarget;
      AtRest();
      var changed, restored;
      conditions := Unlucky(false);
      first, changed, restored := Configure(pid, gateway, false, patch);
      conditions := Calm;
      r, changed, restored := Configure(next, gateway, true, second);
    }

    /** Any number of commands and daemon starts, each of which may fail or die anywhere, with other
        programs starting and stopping the components and taking the lock in between - but no command from an
        exposed start.  Wherever the run is cut short it is atomic, and every new version is the target of the
        one before for one of the requests. */
    method Lifetime(rounds: nat, patches: nat -> Patch)
      requires Valid()
      modifies `files, `state, `noted, `agentUp, `lensUp, `lock, `moves, `versions, `boots, `overwrites
      ensures Continued() && overwrites == old(overwrites)
      ensures forall k | 0 <= k <= |moves| :: AtomicAfter(k)
      ensures Lineage(versions, |old(versions)|, rounds, patches, writer)
    {
      for pid := 0 to rounds
        invariant Continued() && overwrites == old(overwrites)
        invariant |old(versions)| <= |versions| && Lineage(versions, |old(versions)|, rounds, patches, writer)
      {
        OneRound(pid, rounds, patches, |old(versions)|);
      }
      forall k | 0 <= k <= |moves| ensures AtomicAfter(k) {
        CrashAtomicity(start, moves, k);
      }
    }

    method OneRound(pid: nat, rounds: nat, patches: nat -> Patch, ghost from: nat)
      requires Valid() && pid < rounds && 1 <= from <= |versions|
      requires Lineage(versions, from, rounds, patches, writer)
      modifies `files, `state, `noted, `agentUp, `lensUp, `lock, `moves, `versions, `boots, `overwrites
      ensures Continued() && overwrites == old(overwrites)
      ensures from <= |versions| && Lineage(versions, from, rounds, patches, writer)
    {
      hide History, Inv, IsTarget;
      var gateway: bool, ownerAlive: bool, agent: bool, lens: bool := *, *, *, *;
      if {
        case true =>
          ghost var before := Now();
          agentUp, lensUp := agent, lens;
          Moved(before, Outside(agent, lens));
        case lock == Free => LockTo(Held(pid));
        case !Exposed(ownerAlive) =>
          ghost var before := versions;
          var r, changed, restored := Configure(pid, gateway, ownerAlive, patches(pid));
          if versions != before { LineageGrows(before, from, rounds, patches, pid, gateway); }
        case true => var _ := RecoverForCommand(ownerAlive);
        case true => var _ := RecoverConnection(ownerAlive, true);
      }
    }

    lemma LineageGrows(
      before: seq<seq<File>>, from: nat, rounds: nat, patches: nat -> Patch, pid: nat, gateway: bool)
      requires Lineage(before, from, rounds, patches, writer) && pid < rounds
      requires Installed(before, gateway, patches(pid))
      ensures Lineage(versions, from, rounds, patches, writer)
    {
      hide IsTarget;
      assert MadeBy(before[|before| - 1], files, patches, pid, gateway, writer);
      assert Requested(before[|before| - 1], files, rounds, patches, writer);
      forall k | 0 < k < |versions| && from <= k
        ensures Requested(versions[k - 1], versions[k], rounds, patches, writer)
      {
        if k < |before| { assert versions[k - 1] == before[k - 1] && versions[k] == before[k]; }
      }
    }

    ghost predicate AtomicAfter(k: nat)
      requires k <= |moves|
      reads this
    {
      var v := Versions(start, moves[..k]);
      Atomic(Run(start, moves[..k]), v[|v| - 1])
    }
  }
}
