/** The state a server change works on, and the steps a node may take through it.

    A `World` is what survives a crash: the managed files, the recovery state file, the lifecycle lock and
    the running components.  A run is a sequence of `Move`s.  The lemmas here are about every run whose
    moves are legal; the class `Node` (Configure.dfy) shows that the command, its rollback and the two
    recoveries only ever take legal moves, whatever fails and wherever they are cut short. */
module Transaction {
  import opened Wrappers

  /** Managed paths in the order of `configPaths`: agent.env, config.json and, on a gateway only,
      lensnode.env, docker-compose.yml and the applied fingerprint. */
  const PLAIN_PATHS := 2
  const GATEWAY_PATHS := 5
  const LENS_ENV := 2
  const FINGERPRINT := 4

  datatype File = Absent | Present(data: string, mode: nat, owner: int)

  datatype Phase = Prepared | Applying

  /** The recovery record: `transaction` in the source. */
  datatype Record = Record(
    pid: nat, phase: Phase, files: seq<File>, agentRunning: bool, lensRunning: bool, gateway: bool)

  /** `Unreadable` is a lock directory without its pid or operation file. */
  datatype Lock = Free | Unreadable | Held(pid: nat)

  /** `noted` is a history variable: the last record that reached the disk. */
  datatype World = World(
    files: seq<File>, state: Option<Record>, agentUp: bool, lensUp: bool, lock: Lock, noted: Option<Record>)

  datatype Move =
    | Begin(record: Record)                    // the state file is created
    | Overwrite(record: Record)                // it is created over one that is still there
    | Advance                                  // its phase becomes "applying"
    | Touch(path: nat, file: File, boot: bool) // a managed file is written, removed or given an owner
    | Components(agent: bool, lens: bool)      // this program started or stopped something
    | LockTo(lock: Lock)
    | Abandon                                  // the state file is removed over the original files
    | Commit                                   // the state file is removed over the updated files
    | Outside(agent: bool, lens: bool)         // somebody else started or stopped something

  /** After these a recovery leaves the files as they are at that moment. */
  predicate Settles(m: Move) {
    m.Commit? || m.Overwrite?
  }

  predicate SameContent(f: File, g: File) {
    f.Absent? == g.Absent? && (f.Present? ==> f.data == g.data && f.mode == g.mode)
  }

  function PathCount(gateway: bool): nat {
    if gateway then GATEWAY_PATHS else PLAIN_PATHS
  }

  /** What `decodeRecovery` accepts. */
  predicate Decodable(r: Record) {
    |r.files| == PathCount(r.gateway)
  }

  /** Every component the record calls running is down. */
  predicate Quiesced(w: World, r: Record) {
    (r.agentRunning ==> !w.agentUp) && (r.gateway && r.lensRunning ==> !w.lensUp)
  }

  /** The configuration a recovery from `w` would leave: the saved originals while a state file exists,
      the files themselves otherwise. */
  function Committed(w: World): seq<File> {
    if w.state.Some? && |w.state.value.files| <= |w.files|
    then w.state.value.files + w.files[|w.state.value.files|..]
    else w.files
  }

  ghost predicate Inv(w: World) {
    && |w.files| == GATEWAY_PATHS
    && (w.state.Some? ==>
          && Decodable(w.state.value)
          && w.noted.Some?
          && w.noted.value.(phase := Applying) == w.state.value.(phase := Applying)
          && (w.state.value.phase == Prepared ==>
                forall i | 0 <= i < |w.state.value.files| :: SameContent(w.files[i], w.state.value.files[i])))
  }

  /** A fresh record of the files as they are. */
  predicate Snapshot(w: World, r: Record) {
    Decodable(r) && r.phase == Prepared && |w.files| == GATEWAY_PATHS && r.files == w.files[..|r.files|]
  }

  /** `boot` marks the daemon's own recovery, which runs before it has loaded any configuration and does
      not stop components; every other change to the first four files needs them stopped. */
  ghost predicate Legal(w: World, m: Move) {
    match m
    case Begin(r) => w.state.None? && Snapshot(w, r)
    case Overwrite(r) => w.state.Some? && Snapshot(w, r)
    case Advance => w.state.Some?
    case Touch(i, f, boot) =>
      && w.state.Some? && i < |w.state.value.files| && i < |w.files|
      && (SameContent(f, w.files[i]) ||
          (w.state.value.phase == Applying && (boot || i == FINGERPRINT || Quiesced(w, w.state.value))))
    case Components(agent, lens) =>
      && (agent && !w.agentUp ==> w.noted.Some? && w.noted.value.agentRunning)
      && (lens && !w.lensUp ==> w.noted.Some? && w.noted.value.lensRunning)
    case LockTo(_) => true
    case Abandon => w.state.Some? && Committed(w) == w.files
    case Commit => w.state.Some? && w.state.value.phase == Applying
    case Outside(_, _) => true
  }

  function Apply(w: World, m: Move): World {
    match m
    case Begin(r) => w.(state := Some(r), noted := Some(r))
    case Overwrite(r) => w.(state := Some(r), noted := Some(r))
    case Advance => if w.state.Some? then w.(state := Some(w.state.value.(phase := Applying))) else w
    case Touch(i, f, _) => if i < |w.files| then w.(files := w.files[i := f]) else w
    case Components(agent, lens) => w.(agentUp := agent, lensUp := lens)
    case LockTo(l) => w.(lock := l)
    case Abandon => w.(state := None)
    case Commit => w.(state := None)
    case Outside(agent, lens) => w.(agentUp := agent, lensUp := lens)
  }

  function Run(w: World, moves: seq<Move>): World {
    if moves == [] then w else Apply(Run(w, moves[..|moves| - 1]), moves[|moves| - 1])
  }

  ghost predicate LegalRun(w: World, moves: seq<Move>) {
    moves != [] ==>
      var before := moves[..|moves| - 1];
      LegalRun(w, before) && Legal(Run(w, before), moves[|moves| - 1])
  }

  /** What a recovery would have left, oldest first: the configurations committed so far, and the files as they
      were whenever a record was overwritten. */
  function Versions(w: World, moves: seq<Move>): (v: seq<seq<File>>)
    ensures v != []
  {
    if moves == [] then [Committed(w)]
    else
      var before := moves[..|moves| - 1];
      var v := Versions(w, before);
      if Settles(moves[|moves| - 1]) then v + [Run(w, before).files] else v
  }

  /** How many file changes were made by a daemon's own recovery. */
  function BootTouches(moves: seq<Move>): nat {
    if moves == [] then 0
    else BootTouches(moves[..|moves| - 1]) +
         var m := moves[|moves| - 1]; if m.Touch? && m.boot then 1 else 0
  }

  /** How many records were overwritten. */
  function Overwrites(moves: seq<Move>): nat {
    if moves == [] then 0
    else Overwrites(moves[..|moves| - 1]) + if moves[|moves| - 1].Overwrite? then 1 else 0
  }

  lemma StepKeepsInv(w: World, m: Move)
    requires Inv(w) && Legal(w, m)
    ensures Inv(Apply(w, m))
    ensures Committed(Apply(w, m)) == if Settles(m) then w.files else Committed(w)
  {
    if m.Touch? {
      var i, n := m.path, |w.state.value.files|;
      assert w.files[i := m.file][n..] == w.files[n..];
    }
    if m.Begin? || m.Overwrite? {
      assert w.files == w.files[..|m.record.files|] + w.files[|m.record.files|..];
    }
  }

  /** One more legal move. */
  lemma Extend(w: World, moves: seq<Move>, m: Move)
    requires Inv(w) && LegalRun(w, moves) && Inv(Run(w, moves)) && Legal(Run(w, moves), m)
    ensures LegalRun(w, moves + [m]) && Run(w, moves + [m]) == Apply(Run(w, moves), m)
    ensures Inv(Run(w, moves + [m]))
    ensures Committed(Apply(Run(w, moves), m)) ==
              if Settles(m) then Run(w, moves).files else Committed(Run(w, moves))
    ensures Versions(w, moves + [m]) ==
              if Settles(m) then Versions(w, moves) + [Run(w, moves).files] else Versions(w, moves)
    ensures Overwrites(moves + [m]) == Overwrites(moves) + if m.Overwrite? then 1 else 0
    ensures BootTouches(moves + [m]) == BootTouches(moves) + if m.Touch? && m.boot then 1 else 0
  {
    assert (moves + [m])[..|moves|] == moves;
    StepKeepsInv(Run(w, moves), m);
  }

  lemma LegalPrefix(w: World, moves: seq<Move>, k: nat)
    requires LegalRun(w, moves) && k <= |moves|
    ensures LegalRun(w, moves[..k])
    decreases |moves|
  {
    if k == |moves| {
      assert moves[..k] == moves;
    } else {
      assert moves[..|moves| - 1][..k] == moves[..k];
      LegalPrefix(w, moves[..|moves| - 1], k);
    }
  }

  lemma {:induction false} RunKeepsInv(w: World, moves: seq<Move>)
    requires Inv(w) && LegalRun(w, moves)
    ensures Inv(Run(w, moves))
    ensures Committed(Run(w, moves)) == Versions(w, moves)[|Versions(w, moves)| - 1]
  {
    if moves != [] {
      var before := moves[..|moves| - 1];
      RunKeepsInv(w, before);
      StepKeepsInv(Run(w, before), moves[|moves| - 1]);
    }
  }

  /** If a state file is there, it decodes and holds the original of every managed file, and "prepared"
      means no content has changed; if none is there, the files are exactly that version. */
  ghost predicate Atomic(at: World, version: seq<File>) {
    && (at.state.None? ==> at.files == version)
    && (at.state.Some? ==>
          var r := at.state.value;
          && Decodable(r) && |r.files| <= |version| == |at.files| && r.files == version[..|r.files|]
          && at.files[|r.files|..] == version[|r.files|..]
          && (r.phase == Prepared ==>
                forall i | 0 <= i < |r.files| :: SameContent(at.files[i], r.files[i])))
  }

  /** Crash atomicity: stop any run after any number of moves, and what is on disk is atomic with respect
      to the last version. */
  lemma CrashAtomicity(w: World, moves: seq<Move>, k: nat)
    requires Inv(w) && LegalRun(w, moves) && k <= |moves|
    ensures var v := Versions(w, moves[..k]);
            Atomic(Run(w, moves[..k]), v[|v| - 1])
  {
    LegalPrefix(w, moves, k);
    RunKeepsInv(w, moves[..k]);
  }

  /** A move that changes the content of one of the first four files, other than a daemon's own recovery,
      finds every component of the current record stopped; and no move of this program starts a component
      that the last record calls stopped. */
  ghost predicate Disciplined(before: World, m: Move, after: World) {
    && ((exists i | 0 <= i < |before.files| && i < |after.files| ::
           i < FINGERPRINT && !SameContent(after.files[i], before.files[i])) ==>
          before.state.Some? && Quiesced(before, before.state.value))
    && (!m.Outside? && after.agentUp && !before.agentUp ==>
          before.noted.Some? && before.noted.value.agentRunning)
    && (!m.Outside? && after.lensUp && !before.lensUp ==>
          before.noted.Some? && before.noted.value.lensRunning)
    && (before.state.Some? ==>
          before.noted.Some? &&
          before.noted.value.(phase := Applying) == before.state.value.(phase := Applying))
  }

  lemma StepDiscipline(w: World, m: Move)
    requires Inv(w) && Legal(w, m)
    requires !(m.Touch? && m.boot)
    ensures Disciplined(w, m, Apply(w, m))
  {
  }

  /** Component discipline: at every point of a stretch of a run - such as one command - in which no daemon's
      own recovery changed a file. */
  lemma ComponentDiscipline(w: World, moves: seq<Move>, from: nat, k: nat)
    requires Inv(w) && LegalRun(w, moves) && from <= k < |moves|
    requires BootTouches(moves) == BootTouches(moves[..from])
    ensures Disciplined(Run(w, moves[..k]), moves[k], Run(w, moves[..k + 1]))
  {
    hide BootTouches, Versions, Disciplined, Inv, Legal, Apply;
    LegalPrefix(w, moves, k + 1);
    assert moves[..k + 1][..k] == moves[..k];
    RunKeepsInv(w, moves[..k]);
    NoBootTouch(moves, from, k);
    StepDiscipline(Run(w, moves[..k]), moves[k]);
  }

  lemma {:induction false} BootTouchesGrow(moves: seq<Move>, from: nat)
    requires from <= |moves|
    ensures BootTouches(moves[..from]) <= BootTouches(moves)
    decreases |moves|
  {
    if from == |moves| {
      assert moves[..from] == moves;
    } else {
      assert moves[..|moves| - 1][..from] == moves[..from];
      BootTouchesGrow(moves[..|moves| - 1], from);
    }
  }

  lemma {:induction false} NoBootTouch(moves: seq<Move>, from: nat, k: nat)
    requires from <= k < |moves| && BootTouches(moves) == BootTouches(moves[..from])
    ensures !(moves[k].Touch? && moves[k].boot)
    decreases |moves|
  {
    var before := moves[..|moves| - 1];
    assert before[..from] == moves[..from];
    BootTouchesGrow(before, from);
    if k < |moves| - 1 { NoBootTouch(before, from, k); }
  }
}
