/** Prepare and two-phase cleanup of one managed workspace, by any number of callers.

    One UID with its one path.  A step is one effect on the disk, or a decision taken on what is read under
    the lock.  A caller may be stopped at any step: by an error, by cancellation, or by the death of its
    process, which also gives up the file lock. */
module WorkspaceProtocol {
  import opened Wrappers

  /** `Corrupt` is an identity file that was created and never fully written. */
  datatype Identity = Missing | Corrupt | Claimed(owner: nat)

  datatype Tombstone = NoTombstone | Retiring(owner: nat, created: nat) | Retired(owner: nat, created: nat)

  datatype Disk = Disk(tombstone: Tombstone, identity: Identity, workspace: bool, trash: bool)

  /** Where a caller is.  `owner` is the identity its request carries. */
  datatype Caller =
    | PrepareCheck(owner: nat)   // lock held, nothing read yet
    | PrepareClaim(owner: nat)   // about to create the identity file
    | PrepareFill(owner: nat)    // about to write it
    | PrepareEnsure(owner: nat)  // about to create the workspace
    | CleanCheck(owner: nat)     // first phase, lock held
    | CleanRetire(owner: nat, workspace: bool, trash: bool)  // about to write the retiring tombstone
    | CleanRename(owner: nat)    // about to quarantine the workspace
    | CleanDelete(owner: nat)    // lock released; deleting the trash
    | CleanWait(owner: nat)      // waiting for the lock again
    | CleanFinal(owner: nat)     // second phase, lock held
    | CleanForget(owner: nat)    // about to remove the identity
    | CleanSeal(owner: nat)      // about to write the retired tombstone
    | Prepared | Cleaned | Failed

  datatype State = State(disk: Disk, lock: Option<nat>, callers: map<nat, Caller>)

  datatype Event =
    | StartPrepare(id: nat, owner: nat)
    | StartCleanup(id: nat, owner: nat)
    | Act(id: nat, now: nat)          // the caller's next step succeeds
    | Stop(id: nat, left: Disk)       // it is stopped in that step, leaving `left`

  predicate InLock(c: Caller) {
    !c.CleanDelete? && !c.CleanWait? && !Finished(c)
  }

  predicate Finished(c: Caller) {
    c.Prepared? || c.Cleaned? || c.Failed?
  }

  predicate Agrees(t: Tombstone, owner: nat) {
    t.NoTombstone? || t.owner == owner
  }

  /** Nothing left but the tombstone. */
  predicate Bare(d: Disk) {
    d.identity == Missing && !d.workspace && !d.trash
  }

  /** The tombstone `newLensWorkspaceTombstone` makes: an existing creation time is kept. */
  function RetiringTombstone(t: Tombstone, owner: nat, now: nat): Tombstone {
    Retiring(owner, if t.NoTombstone? then now else t.created)
  }

  /** The disk after a caller's next step, and where the caller then is. */
  function Next(d: Disk, c: Caller, now: nat): (Disk, Caller) {
    match c
    case PrepareCheck(o) =>
      if d.tombstone != NoTombstone then (d, Failed)
      else if d.identity == Claimed(o) then (d, PrepareEnsure(o))
      else if d.identity != Missing || d.workspace then (d, Failed)
      else (d, PrepareClaim(o))
    case PrepareClaim(o) => (d.(identity := Corrupt), PrepareFill(o))
    case PrepareFill(o) => (d.(identity := Claimed(o)), PrepareEnsure(o))
    case PrepareEnsure(o) => (d.(workspace := true), Prepared)
    case CleanCheck(o) =>
      if !Agrees(d.tombstone, o) then (d, Failed)
      else if d.tombstone.Retired? then (d, if Bare(d) then Cleaned else Failed)
      else if d.identity != Claimed(o) && !Bare(d) then (d, Failed)
      else (d, CleanRetire(o, d.workspace, d.trash))
    case CleanRetire(o, workspace, trash) =>
      (d.(tombstone := RetiringTombstone(d.tombstone, o, now)),
       if workspace && trash then Failed else if workspace then CleanRename(o) else CleanDelete(o))
    case CleanRename(o) => (d.(workspace := false, trash := true), CleanDelete(o))
    case CleanDelete(o) => (d.(trash := false), CleanWait(o))
    case CleanWait(o) => (d, CleanFinal(o))
    case CleanFinal(o) =>
      if d.tombstone.NoTombstone? || !Agrees(d.tombstone, o) then (d, Failed)
      else if d.tombstone.Retired? then (d, if Bare(d) then Cleaned else Failed)
      else if d.workspace || d.trash then (d, Failed)
      else (d, CleanForget(o))
    case CleanForget(o) => (d.(identity := Missing), CleanSeal(o))
    case CleanSeal(o) =>
      (if d.tombstone.NoTombstone? then d else d.(tombstone := Retired(o, d.tombstone.created)), Cleaned)
    case Prepared => (d, c)
    case Cleaned => (d, c)
    case Failed => (d, c)
  }

  /** What a caller stopped in its next step may leave: the step undone or done; or, while the identity is
      being written, the half-written file, the finished one, or none once the deferred removal ran. */
  predicate Leaves(d: Disk, c: Caller, left: Disk) {
    || left == d
    || left == Next(d, c, if left.tombstone.NoTombstone? then 0 else left.tombstone.created).0
    || (c.PrepareFill? && left == d.(identity := Missing))
  }

  predicate Enabled(s: State, e: Event) {
    match e
    case StartPrepare(t, _) => t !in s.callers && s.lock == None
    case StartCleanup(t, _) => t !in s.callers && s.lock == None
    case Act(t, _) => t in s.callers && !Finished(s.callers[t]) && (s.callers[t].CleanWait? ==> s.lock == None)
    case Stop(t, left) => t in s.callers && !Finished(s.callers[t]) && Leaves(s.disk, s.callers[t], left)
  }

  /** The lock after caller `t` has come to `c`. */
  function LockAfter(lock: Option<nat>, t: nat, c: Caller): Option<nat> {
    if InLock(c) then Some(t) else if lock == Some(t) then None else lock
  }

  function Step(s: State, e: Event): State
    requires Enabled(s, e)
  {
    match e
    case StartPrepare(t, o) => State(s.disk, Some(t), s.callers[t := PrepareCheck(o)])
    case StartCleanup(t, o) => State(s.disk, Some(t), s.callers[t := CleanCheck(o)])
    case Act(t, now) =>
      var (d, c) := Next(s.disk, s.callers[t], now);
      State(d, LockAfter(s.lock, t, c), s.callers[t := c])
    case Stop(t, left) => State(left, LockAfter(s.lock, t, Failed), s.callers[t := Failed])
  }

  /** A caller takes at most this many more steps. */
  function Remaining(c: Caller): nat {
    match c
    case PrepareCheck(_) => 4
    case PrepareClaim(_) => 3
    case PrepareFill(_) => 2
    case PrepareEnsure(_) => 1
    case CleanCheck(_) => 8
    case CleanRetire(_, _, _) => 7
    case CleanRename(_) => 6
    case CleanDelete(_) => 5
    case CleanWait(_) => 4
    case CleanFinal(_) => 3
    case CleanForget(_) => 2
    case CleanSeal(_) => 1
    case _ => 0
  }

  predicate Preparing(c: Caller) {
    c.PrepareCheck? || c.PrepareClaim? || c.PrepareFill? || c.PrepareEnsure? || c.Prepared? || c.Failed?
  }

  /** When an undisturbed cleanup for `owner` succeeds. */
  predicate Cleanable(d: Disk, owner: nat) {
    d.identity != Corrupt && (d.identity.Claimed? ==> d.identity.owner == owner) && Agrees(d.tombstone, owner)
  }

  /** When an undisturbed prepare for `owner` succeeds. */
  predicate Preparable(d: Disk, owner: nat) {
    d.tombstone == NoTombstone && (d.identity == Missing || d.identity == Claimed(owner))
  }

  /** The tombstone a completed cleanup leaves. */
  function RetiredTombstone(t: Tombstone, owner: nat, now: nat): Tombstone {
    Retired(owner, if t.NoTombstone? then now else t.created)
  }

  // ---- The invariant ----

  ghost predicate DiskInv(d: Disk) {
    && !(d.workspace && d.trash)
    && (d.workspace || d.trash ==> d.identity.Claimed?)
    && (d.trash ==> d.tombstone != NoTombstone)
    && (d.tombstone.Retired? ==> Bare(d))
    && (d.identity == Corrupt ==> d.tombstone == NoTombstone)
    && (d.identity.Claimed? ==> Agrees(d.tombstone, d.identity.owner))
  }

  /** What holds while a caller is at `c`, whatever the others do. */
  ghost predicate CallerInv(d: Disk, c: Caller) {
    match c
    case PrepareClaim(o) => d.tombstone == NoTombstone && Bare(d)
    case PrepareFill(o) => d.tombstone == NoTombstone && d.identity == Corrupt
    case PrepareEnsure(o) => d.tombstone == NoTombstone && d.identity == Claimed(o)
    case CleanRetire(o, workspace, trash) =>
      && Agrees(d.tombstone, o) && !d.tombstone.Retired? && workspace == d.workspace && (d.trash ==> trash)
      && !(workspace && trash) && (d.identity == Claimed(o) || Bare(d))
    case CleanRename(o) =>
      d.tombstone.Retiring? && d.tombstone.owner == o && d.identity == Claimed(o) && d.workspace
    case CleanDelete(o) => d.tombstone != NoTombstone && d.tombstone.owner == o && !d.workspace
    case CleanWait(o) => d.tombstone != NoTombstone && d.tombstone.owner == o && !d.workspace && !d.trash
    case CleanFinal(o) => d.tombstone != NoTombstone && d.tombstone.owner == o && !d.workspace && !d.trash
    case CleanForget(o) => d.tombstone.Retiring? && d.tombstone.owner == o && !d.workspace && !d.trash
    case CleanSeal(o) => d.tombstone.Retiring? && d.tombstone.owner == o && Bare(d)
    case Cleaned => d.tombstone.Retired?
    case _ => true
  }

  ghost predicate Inv(s: State) {
    && DiskInv(s.disk)
    && (forall t | t in s.callers :: CallerInv(s.disk, s.callers[t]))
    && (forall t | t in s.callers :: InLock(s.callers[t]) ==> s.lock == Some(t))
    && (s.lock.Some? ==> s.lock.value in s.callers && InLock(s.callers[s.lock.value]))
  }

  /** The tombstone only moves from absent to retiring to retired, and never changes owner or creation
      time once written. */
  ghost predicate Follows(t: Tombstone, u: Tombstone) {
    t.NoTombstone? || u == t || (t.Retiring? && u == Retired(t.owner, t.created))
  }

  /** One caller's own step, seen from the disk: it keeps the disk's invariant and lands the caller where
      its own invariant holds. */
  lemma NextKeeps(d: Disk, c: Caller, now: nat)
    requires DiskInv(d) && CallerInv(d, c)
    ensures var (d', c') := Next(d, c, now);
            DiskInv(d') && CallerInv(d', c') && Follows(d.tombstone, d'.tombstone)
  {
  }

  /** ... it brings the caller closer to its end, and a prepare stays a prepare ... */
  lemma NextAdvances(d: Disk, c: Caller, now: nat)
    requires !Finished(c)
    ensures Remaining(Next(d, c, now).1) < Remaining(c)
    ensures !Next(d, c, now).1.Failed? ==> (Preparing(Next(d, c, now).1) <==> Preparing(c))
  {
  }

  /** ... and does not disturb another caller, unless both were inside the lock. */
  lemma NextSpares(d: Disk, c: Caller, now: nat, other: Caller)
    requires DiskInv(d) && CallerInv(d, c) && CallerInv(d, other) && !(InLock(c) && InLock(other))
    ensures CallerInv(Next(d, c, now).0, other)
  {
  }

  /** What one caller's step does to the whole, whether it succeeded or was the caller's last. */
  lemma MoveKeepsInv(s: State, t: nat, now: nat, d: Disk, c: Caller)
    requires Inv(s) && t in s.callers && !Finished(s.callers[t])
    requires s.callers[t].CleanWait? ==> s.lock == None || c == Failed
    requires (d, c) == Next(s.disk, s.callers[t], now) || (c == Failed && Leaves(s.disk, s.callers[t], d))
    ensures Inv(State(d, LockAfter(s.lock, t, c), s.callers[t := c]))
    ensures Follows(s.disk.tombstone, d.tombstone)
  {
    var was := s.callers[t];
    var at := if (d, c) == Next(s.disk, was, now) then now
              else if d.tombstone.NoTombstone? then 0 else d.tombstone.created;
    NextKeeps(s.disk, was, at);
    forall u | u in s.callers && u != t ensures CallerInv(d, s.callers[u]) {
      NextSpares(s.disk, was, at, s.callers[u]);
    }
  }

  lemma StepKeepsInv(s: State, e: Event)
    requires Inv(s) && Enabled(s, e)
    ensures Inv(Step(s, e))
    ensures Follows(s.disk.tombstone, Step(s, e).disk.tombstone)
  {
    hide Next, Leaves, DiskInv;
    match e
    case Act(t, now) =>
      var (d, c) := Next(s.disk, s.callers[t], now);
      MoveKeepsInv(s, t, now, d, c);
    case Stop(t, left) => MoveKeepsInv(s, t, 0, left, Failed);
    case _ =>
  }

  // ---- Runs ----

  ghost predicate Run(s: State, events: seq<Event>, s': State)
    decreases |events|
  {
    if events == [] then s' == s
    else Enabled(s, events[0]) && Run(Step(s, events[0]), events[1..], s')
  }

  /** The lifecycle invariant, for any interleaving of prepares, cleanups and deaths. */
  lemma {:induction false} LifecycleInvariant(s: State, events: seq<Event>, s': State)
    requires Inv(s) && Run(s, events, s')
    ensures Inv(s') && Follows(s.disk.tombstone, s'.disk.tombstone)
    decreases |events|
  {
    if events != [] {
      StepKeepsInv(s, events[0]);
      LifecycleInvariant(Step(s, events[0]), events[1..], s');
    }
  }

  function PreparedCallers(s: State): set<nat> {
    set t | t in s.callers && s.callers[t] == Prepared
  }

  lemma StepDoesNotResurrect(s: State, e: Event)
    requires Inv(s) && Enabled(s, e) && s.disk.tombstone != NoTombstone
    ensures PreparedCallers(Step(s, e)) == PreparedCallers(s)
    ensures Step(s, e).disk.workspace ==> s.disk.workspace
  {
  }

  /** Once a tombstone exists no prepare succeeds and no workspace comes back, in any continuation: not even
      by a prepare already under way, and not while trash is being deleted outside the lock. */
  lemma {:induction false} NoResurrection(s: State, events: seq<Event>, s': State)
    requires Inv(s) && Run(s, events, s') && s.disk.tombstone != NoTombstone
    ensures PreparedCallers(s') == PreparedCallers(s)
    ensures s'.disk.workspace ==> s.disk.workspace
    decreases |events|
  {
    hide Inv, Step, Enabled;
    if events != [] {
      StepKeepsInv(s, events[0]);
      StepDoesNotResurrect(s, events[0]);
      NoResurrection(Step(s, events[0]), events[1..], s');
    }
  }

  function SuccessfulCallers(s: State): set<nat> {
    set t | t in s.callers && (s.callers[t] == Prepared || s.callers[t] == Cleaned)
  }

  lemma CorruptStep(s: State, e: Event)
    requires Inv(s) && Enabled(s, e)
    requires s.disk.identity == Corrupt && forall t | t in s.callers :: !s.callers[t].PrepareFill?
    ensures Step(s, e).disk == s.disk && SuccessfulCallers(Step(s, e)) == SuccessfulCallers(s)
    ensures forall t | t in Step(s, e).callers :: !Step(s, e).callers[t].PrepareFill?
  {
  }

  /** A half-written identity is the one state the protocol cannot leave: while no caller is still writing
      it, every prepare and every cleanup that starts from it fails and changes nothing. */
  lemma {:induction false} CorruptIsStuck(s: State, events: seq<Event>, s': State)
    requires Inv(s) && Run(s, events, s')
    requires s.disk.identity == Corrupt && forall t | t in s.callers :: !s.callers[t].PrepareFill?
    ensures s'.disk == s.disk
    ensures SuccessfulCallers(s') == SuccessfulCallers(s)
    decreases |events|
  {
    hide Inv, Step, Enabled;
    if events != [] {
      StepKeepsInv(s, events[0]);
      CorruptStep(s, events[0]);
      CorruptIsStuck(Step(s, events[0]), events[1..], s');
    }
  }

  /** Appending one event to a run. */
  lemma {:induction false} Extend(s: State, events: seq<Event>, mid: State, e: Event)
    requires Run(s, events, mid) && Enabled(mid, e)
    ensures Run(s, events + [e], Step(mid, e))
    decreases |events|
  {
    if events == [] {
      assert events + [e] == [e] && [e][1..] == [];
    } else {
      assert (events + [e])[1..] == events[1..] + [e];
      Extend(Step(s, events[0]), events[1..], mid, e);
    }
  }

  /** ... and that state is reachable: a prepare that dies between creating the file and writing it. */
  lemma DeathLeavesCorrupt(id: nat, owner: nat) returns (s: State, events: seq<Event>, s': State)
    ensures Inv(s) && Bare(s.disk) && s.callers == map[] && Run(s, events, s')
    ensures s'.disk.identity == Corrupt && s'.lock == None
    ensures forall t | t in s'.callers :: Finished(s'.callers[t])
  {
    s := State(Disk(NoTombstone, Missing, false, false), None, map[]);
    var e0, e1, e2 := StartPrepare(id, owner), Act(id, 0), Act(id, 0);
    var s1 := Step(s, e0);
    var s2 := Step(s1, e1);
    var s3 := Step(s2, e2);
    assert s3.callers[id] == PrepareFill(owner) && s3.disk.identity == Corrupt;
    var e3 := Stop(id, s3.disk);
    s' := Step(s3, e3);
    events := [] + [e0] + [e1] + [e2] + [e3];
    Extend(s, [], s, e0);
    Extend(s, [] + [e0], s1, e1);
    Extend(s, [] + [e0] + [e1], s2, e2);
    Extend(s, [] + [e0] + [e1] + [e2], s3, e3);
  }
}
