/** Preparing a backup repository: which checks and commands come before an answer of "ready".

    Every check and command may answer anything.  A `Preparation` keeps the log of what was asked and
    answered, and the properties are about that log. */
module RepositoryPrepare {

  datatype Kind = S3 | Nas | ProxyFs | KopiaServer | OtherFilesystem

  datatype Mode = Initialize | Connect

  /** `owned` says that the repository is bound to an ownership marker, `managed` that its layout is
      "managed_subdir_v1". */
  datatype Spec = Spec(kind: Kind, owned: bool, managed: bool)

  /** `probing` says that the request is one of the two restore probes, `policyValid` that its cache policy could
      be parsed. */
  datatype Request = Request(
    allowAdoption: bool, skipOwnership: bool, probing: bool, repairMount: bool, policyValid: bool)

  /** The repository's config file, once a changed S3 connection has been invalidated: not there, not to be
      looked at, without a readable cache policy, or with one that matches the request's or differs. */
  datatype ConfigFile = Missing | Unstatable | Unreadable | Matching | Differing

  datatype Creation = Created | AlreadyExists | NotCreated

  datatype Event =
    | Mount(ok: bool)
    | Verify(adopt: bool, wrote: bool, ok: bool)  // the ownership marker must be ours; adoption may write it
    | CheckIfPresent(ok: bool)       // a marker, if any, must be ours
    | Marker(matched: bool)          // initialization looked for its own marker
    | MakeDirectory(ok: bool)
    | WriteProbe(ok: bool)
    | Claim(ok: bool)
    | CacheSet(ok: bool)             // `cache set` on the config file
    | VerifyS3(ok: bool)
    | Create(result: Creation)
    | Connect(ok: bool)
    | Status(ok: bool)

  /** The ownership check is only ever skipped for a connecting restore probe. */
  predicate Skips(mode: Mode, req: Request) {
    req.skipOwnership && mode == Mode.Connect && req.probing
  }

  predicate Bound(spec: Spec, mode: Mode, req: Request) {
    spec.kind != S3 && spec.owned && !Skips(mode, req)
  }

  /** A connection to a bucket whose ownership is to be checked. */
  predicate BucketBound(spec: Spec, mode: Mode, req: Request) {
    spec.kind == S3 && mode == Mode.Connect && !Skips(mode, req)
  }

  /** The config file is there and its cache policy is not the requested one. */
  predicate SetsCache(req: Request, config: ConfigFile) {
    req.policyValid && config == Differing
  }

  // ---- Reading a log ----

  predicate IsRepositoryCommand(e: Event) {
    e.Create? || e.Connect? || e.Status?
  }

  predicate IsCommand(e: Event) {
    IsRepositoryCommand(e) || e.CacheSet?
  }

  /** The last command is a successful status. */
  predicate Ready(log: seq<Event>) {
    log != [] &&
    var e := log[|log| - 1];
    if IsCommand(e) then e == Status(true) else Ready(log[..|log| - 1])
  }

  /** Since that status the ownership check has passed. */
  predicate OwnershipConfirmed(log: seq<Event>, adopt: bool) {
    log != [] &&
    var e, before := log[|log| - 1], log[..|log| - 1];
    if e.Verify? then e.adopt == adopt && e.ok && Ready(before)
    else !IsCommand(e) && OwnershipConfirmed(before, adopt)
  }

  /** The marker was looked for, and the last look matched. */
  predicate MarkerMatched(log: seq<Event>) {
    log != [] &&
    var e := log[|log| - 1];
    if e.Marker? then e.matched else MarkerMatched(log[..|log| - 1])
  }

  /** The last creation found a repository, and the marker had matched before it. */
  predicate OwnRepositoryFound(log: seq<Event>) {
    log != [] &&
    var e, before := log[|log| - 1], log[..|log| - 1];
    if e.Create? then e.result == AlreadyExists && MarkerMatched(before) else OwnRepositoryFound(before)
  }

  /** Every connect came after that. */
  predicate ConnectsOnlyToOwn(log: seq<Event>) {
    log == [] ||
    (var e, before := log[|log| - 1], log[..|log| - 1];
     ConnectsOnlyToOwn(before) && (e.Connect? ==> OwnRepositoryFound(before)))
  }

  predicate Verified(log: seq<Event>) {
    log != [] && (log[|log| - 1] == Verify(false, false, true) || Verified(log[..|log| - 1]))
  }

  /** Every directory made in and every probe written to the repository path came after a passed ownership check. */
  predicate WritesOnlyVerified(log: seq<Event>) {
    log == [] ||
    (var e, before := log[|log| - 1], log[..|log| - 1];
     WritesOnlyVerified(before) && (e.MakeDirectory? || e.WriteProbe? ==> Verified(before)))
  }

  predicate NeverCreates(log: seq<Event>) {
    forall i | 0 <= i < |log| :: !log[i].Create? && !log[i].Claim? && !log[i].Marker?
  }

  predicate NoRepositoryCommands(log: seq<Event>) {
    forall i | 0 <= i < |log| :: !IsRepositoryCommand(log[i])
  }

  predicate NoBucketCheck(log: seq<Event>) {
    forall i | 0 <= i < |log| :: !log[i].VerifyS3?
  }

  predicate CacheWasSet(log: seq<Event>) {
    exists i :: 0 <= i < |log| && log[i].CacheSet?
  }

  predicate BucketVerified(log: seq<Event>) {
    VerifyS3(true) in log
  }

  /** A marker is written only by an adoption, an adoption only happens when it is allowed, and then directly
      after a successful status. */
  predicate AdoptsOnlyReady(log: seq<Event>, allowed: bool) {
    forall k | 0 <= k < |log| :: AdoptsReady(log, k, allowed)
  }

  predicate AdoptsReady(log: seq<Event>, k: nat, allowed: bool)
    requires k < |log|
  {
    log[k].Verify? ==>
      (log[k].wrote ==> log[k].adopt) && (log[k].adopt ==> allowed && k > 0 && log[k - 1] == Status(true))
  }

  /** The cache is set before the bucket is checked, and both before any repository command. */
  predicate Phased(log: seq<Event>) {
    forall j, k | 0 <= j < k < |log| ::
      && (log[k].CacheSet? ==> !IsRepositoryCommand(log[j]) && !log[j].VerifyS3?)
      && (log[k].VerifyS3? ==> !IsRepositoryCommand(log[j]))
  }

  /** Every repository command came after the bucket was verified. */
  predicate CommandsAfterBucket(log: seq<Event>) {
    forall k | 0 <= k < |log| && IsRepositoryCommand(log[k]) :: BucketVerified(log[..k])
  }

  /** Some command ran before the bucket was checked. */
  predicate CommandBeforeBucket(log: seq<Event>) {
    exists j, k :: 0 <= j < k < |log| && IsCommand(log[j]) && log[k].VerifyS3?
  }

  /** ... which is so exactly when the cache was set. */
  lemma CommandBeforeBucketIff(log: seq<Event>)
    requires Phased(log) && BucketVerified(log)
    ensures CommandBeforeBucket(log) <==> CacheWasSet(log)
  {
    if CacheWasSet(log) {
      var j :| 0 <= j < |log| && log[j].CacheSet?;
      var k :| 0 <= k < |log| && log[k] == VerifyS3(true);
    }
  }

  // ---- The same, by position ----

  lemma {:induction false} ReadyByPosition(log: seq<Event>) returns (k: nat)
    requires Ready(log)
    ensures k < |log| && log[k] == Status(true) && forall j | k < j < |log| :: !IsCommand(log[j])
  {
    if IsCommand(log[|log| - 1]) {
      k := |log| - 1;
    } else {
      k := ReadyByPosition(log[..|log| - 1]);
    }
  }

  lemma {:induction false} ConfirmedByPosition(log: seq<Event>, adopt: bool) returns (k: nat, m: nat)
    requires OwnershipConfirmed(log, adopt)
    ensures k < m < |log| && log[k] == Status(true) && log[m].Verify? && log[m].adopt == adopt && log[m].ok
    ensures forall j | k < j < |log| :: !IsCommand(log[j])
  {
    var before := log[..|log| - 1];
    if log[|log| - 1].Verify? {
      m := |log| - 1;
      k := ReadyByPosition(before);
    } else {
      k, m := ConfirmedByPosition(before, adopt);
    }
  }

  lemma {:induction false} MatchedByPosition(log: seq<Event>) returns (i: nat)
    requires MarkerMatched(log)
    ensures i < |log| && log[i] == Marker(true)
  {
    if log[|log| - 1].Marker? {
      i := |log| - 1;
    } else {
      i := MatchedByPosition(log[..|log| - 1]);
    }
  }

  lemma {:induction false} FoundByPosition(log: seq<Event>) returns (i: nat, j: nat)
    requires OwnRepositoryFound(log)
    ensures i < j < |log| && log[i] == Marker(true) && log[j] == Create(AlreadyExists)
  {
    if log[|log| - 1].Create? {
      j := |log| - 1;
      i := MatchedByPosition(log[..j]);
    } else {
      i, j := FoundByPosition(log[..|log| - 1]);
    }
  }

  /** An orderly initialization connects at position `k` only after a creation found a repository, and that
      only after its marker had matched. */
  lemma {:induction false} OwnByPosition(log: seq<Event>, k: nat) returns (i: nat, j: nat)
    requires ConnectsOnlyToOwn(log) && k < |log| && log[k].Connect?
    ensures i < j < k && log[i] == Marker(true) && log[j] == Create(AlreadyExists)
    decreases |log|
  {
    if k == |log| - 1 {
      i, j := FoundByPosition(log[..k]);
    } else {
      i, j := OwnByPosition(log[..|log| - 1], k);
    }
  }

  /** What holds of a log at every point of the preparation. */
  ghost predicate Orderly(log: seq<Event>, spec: Spec, mode: Mode, req: Request, config: ConfigFile) {
    && (mode == Initialize ==> ConnectsOnlyToOwn(log))
    && (mode == Mode.Connect ==> NeverCreates(log))
    && (mode == Mode.Connect && Bound(spec, mode, req) && !req.allowAdoption ==> WritesOnlyVerified(log))
    && AdoptsOnlyReady(log, req.allowAdoption)
    && Phased(log) && (BucketBound(spec, mode, req) ==> CommandsAfterBucket(log))
    && (CacheWasSet(log) ==> SetsCache(req, config))
  }

  class Preparation {
    const spec: Spec
    const mode: Mode
    const req: Request
    const config: ConfigFile
    const smooth: bool  // every check passes and every command succeeds
    ghost var log: seq<Event>

    constructor (spec: Spec, mode: Mode, req: Request, config: ConfigFile, smooth: bool)
      ensures this.spec == spec && this.mode == mode && this.req == req && this.config == config
      ensures this.smooth == smooth && log == []
    {
      this.spec, this.mode, this.req, this.config, this.smooth, log := spec, mode, req, config, smooth, [];
    }

    ghost predicate Valid()
      reads this
    {
      Orderly(log, spec, mode, req, config)
    }

    /** What may be asked now. */
    ghost predicate Allowed(e: Event)
      reads this
    {
      && (e.Connect? && mode == Initialize ==> OwnRepositoryFound(log))
      && (e.Create? || e.Claim? || e.Marker? ==> mode == Initialize)
      && (e.MakeDirectory? || e.WriteProbe? ==>
            (mode == Mode.Connect && Bound(spec, mode, req) && !req.allowAdoption ==> Verified(log)))
      && (e.Verify? ==>
            && (e.wrote ==> e.adopt)
            && (e.adopt ==> req.allowAdoption && log != [] && log[|log| - 1] == Status(true)))
      && (e.CacheSet? ==> SetsCache(req, config) && NoRepositoryCommands(log) && NoBucketCheck(log))
      && (e.VerifyS3? ==> NoRepositoryCommands(log))
      && (IsRepositoryCommand(e) && BucketBound(spec, mode, req) ==> BucketVerified(log))
    }

    /** What the log says after one more question, answered. */
    static predicate Follows(before: seq<Event>, e: Event, log: seq<Event>) {
      && log == before + [e]
      && (Ready(log) <==> if IsCommand(e) then e == Status(true) else Ready(before))
      && (NoRepositoryCommands(log) <==> NoRepositoryCommands(before) && !IsRepositoryCommand(e))
      && (NoBucketCheck(log) <==> NoBucketCheck(before) && !e.VerifyS3?)
      && (CacheWasSet(log) <==> CacheWasSet(before) || e.CacheSet?)
      && (BucketVerified(log) <==> BucketVerified(before) || e == VerifyS3(true))
      && (MarkerMatched(log) <==> if e.Marker? then e.matched else MarkerMatched(before))
      && (OwnRepositoryFound(log) <==>
            if e.Create? then e.result == AlreadyExists && MarkerMatched(before) else OwnRepositoryFound(before))
      && (Verified(log) <==> Verified(before) || e == Verify(false, false, true))
      && (forall adopt :: OwnershipConfirmed(log, adopt) <==>
            if e.Verify? then e.adopt == adopt && e.ok && Ready(before)
            else !IsCommand(e) && OwnershipConfirmed(before, adopt))
    }

    static lemma OneMore(before: seq<Event>, e: Event)
      ensures Follows(before, e, before + [e])
    {
      hide NoRepositoryCommands, NoBucketCheck, CacheWasSet, BucketVerified;
      assert (before + [e])[..|before|] == before;
      OneMoreAnywhere(before, e);
    }

    static lemma OneMoreAnywhere(before: seq<Event>, e: Event)
      ensures var log := before + [e];
              && (NoRepositoryCommands(log) <==> NoRepositoryCommands(before) && !IsRepositoryCommand(e))
              && (NoBucketCheck(log) <==> NoBucketCheck(before) && !e.VerifyS3?)
              && (CacheWasSet(log) <==> CacheWasSet(before) || e.CacheSet?)
              && (BucketVerified(log) <==> BucketVerified(before) || e == VerifyS3(true))
    {
      var log := before + [e];
      assert log[|before|] == e && forall i | 0 <= i < |before| :: log[i] == before[i];
      if CacheWasSet(before) {
        var i :| 0 <= i < |before| && before[i].CacheSet?;
        assert log[i].CacheSet?;
      }
      if e.CacheSet? { assert log[|before|].CacheSet?; }
    }

    /** One more question, answered. */
    ghost method Note(e: Event)
      requires Valid() && Allowed(e)
      modifies `log
      ensures Valid() && Follows(old(log), e, log)
    {
      hide Follows;
      OneMore(log, e);
      StaysOrderly(e);
      log := log + [e];
    }

    lemma StaysOrderly(e: Event)
      requires Valid() && Allowed(e)
      ensures Orderly(log + [e], spec, mode, req, config)
    {
      hide OwnRepositoryFound, Verified, SetsCache;
      var more := log + [e];
      assert more[..|more| - 1] == log;
      assert more[|log|] == e && forall i | 0 <= i < |log| :: more[i] == log[i];
      assert BucketBound(spec, mode, req) ==> CommandsAfterBucket(more) by {
        assert forall k | 0 <= k <= |log| :: more[..k] == log[..k];
      }
      AdoptsExtends(log, e, req.allowAdoption);
    }

    static lemma AdoptsExtends(log: seq<Event>, e: Event, allowed: bool)
      requires AdoptsOnlyReady(log, allowed)
      requires e.Verify? ==>
                 && (e.wrote ==> e.adopt)
                 && (e.adopt ==> allowed && log != [] && log[|log| - 1] == Status(true))
      ensures AdoptsOnlyReady(log + [e], allowed)
    {
      var more := log + [e];
      forall k | 0 <= k < |more| ensures AdoptsReady(more, k, allowed) {
        if k < |log| { assert AdoptsReady(log, k, allowed); }
      }
    }

    method Answer() returns (ok: bool)
      ensures smooth ==> ok
    {
      ok := *;
      if smooth { ok := true; }
    }

    method RunStatus() returns (ok: bool)
      requires Valid() && (BucketBound(spec, mode, req) ==> BucketVerified(log))
      modifies `log
      ensures Valid() && Follows(old(log), Status(ok), log) && (smooth ==> ok)
    {
      hide Orderly;
      ok := Answer();
      Note(Status(ok));
    }

    method RunConnect() returns (ok: bool)
      requires Valid() && (mode == Initialize ==> OwnRepositoryFound(log))
      requires BucketBound(spec, mode, req) ==> BucketVerified(log)
      modifies `log
      ensures Valid() && Follows(old(log), Event.Connect(ok), log) && (smooth ==> ok)
    {
      hide Orderly, OwnRepositoryFound;
      ok := Answer();
      Note(Event.Connect(ok));
    }

    /** `verifyFilesystemRepositoryOwnership`: only an adoption may write the missing marker. */
    method VerifyOwnership(adopt: bool) returns (ok: bool, ghost wrote: bool)
      requires Valid()
      requires adopt ==> req.allowAdoption && log != [] && log[|log| - 1] == Status(true)
      modifies `log
      ensures Valid() && Follows(old(log), Verify(adopt, wrote, ok), log) && (smooth ==> ok)
      ensures wrote ==> adopt
    {
      hide Orderly;
      ok := Answer();
      wrote := *;
      if !adopt { wrote := false; }
      Note(Verify(adopt, wrote, ok));
    }

    /** No command so far, no bucket check and no marker either. */
    ghost predicate Untouched()
      reads this
    {
      NoRepositoryCommands(log) && NoBucketCheck(log) && !CacheWasSet(log)
    }

    /** Mount a NAS, and where writing is intended make and probe the repository directory. */
    method PrepareMount() returns (ok: bool)
      requires Valid() && Untouched() && !MarkerMatched(log)
      modifies `log
      ensures Valid() && Untouched() && !MarkerMatched(log) && (smooth ==> ok)
    {
      hide Orderly, MarkerMatched, Verified, Ready, OwnershipConfirmed, OwnRepositoryFound;
      hide NoRepositoryCommands, NoBucketCheck, CacheWasSet, BucketVerified;
      ok := Answer();
      Note(Mount(ok));
      if !ok { return; }
      ok := Answer();  // repositoryNASPath
      if !ok { return; }
      if mode == Mode.Connect && spec.owned && !req.allowAdoption && !Skips(mode, req) {
        ghost var wrote;
        ok, wrote := VerifyOwnership(false);
        if !ok { return; }
      }
      if mode == Initialize || req.repairMount { ok := ProbeMount(); }
    }

    method ProbeMount() returns (ok: bool)
      requires Valid() && Untouched() && !MarkerMatched(log)
      requires mode == Mode.Connect && Bound(spec, mode, req) && !req.allowAdoption ==> Verified(log)
      modifies `log
      ensures Valid() && Untouched() && !MarkerMatched(log) && (smooth ==> ok)
    {
      hide Orderly, MarkerMatched, Verified, Ready, OwnershipConfirmed, OwnRepositoryFound;
      hide NoRepositoryCommands, NoBucketCheck, CacheWasSet, BucketVerified;
      ok := Answer();
      Note(MakeDirectory(ok));
      if !ok { return; }
      ok := Answer();
      Note(WriteProbe(ok));
    }

    /** What initialization does before any command; `existed` is whether its marker was already there. */
    method PrepareInitialize() returns (ok: bool, existed: bool)
      requires Valid() && Untouched() && !MarkerMatched(log)
      modifies `log
      ensures Valid() && Untouched() && (smooth ==> ok)
      ensures ok ==> (existed <==> MarkerMatched(log))
    {
      hide Orderly, MarkerMatched, Verified, Ready, OwnershipConfirmed, OwnRepositoryFound;
      hide NoRepositoryCommands, NoBucketCheck, CacheWasSet, BucketVerified;
      ok, existed := true, false;
      if mode == Initialize && spec.kind != S3 && spec.owned {
        ok := Answer();
        if !ok { return; }
        existed := Answer();
        Note(Marker(existed));
      }
      if mode == Initialize && spec.kind == ProxyFs && spec.managed {
        ok := Answer();
        if !ok { return; }
        var free := Answer();
        if !free && !existed { return false, existed; }
      }
      if mode == Initialize && spec.kind != S3 && spec.owned {
        ok := Answer();
        Note(Claim(ok));
      }
    }

    /** `applyManagedKopiaCachePolicy`: a failure does not matter. */
    method ApplyCachePolicy()
      requires Valid() && Untouched()
      modifies `log
      ensures Valid() && NoRepositoryCommands(log) && NoBucketCheck(log)
      ensures CacheWasSet(log) <==> SetsCache(req, config)
      ensures MarkerMatched(log) == old(MarkerMatched(log))
    {
      hide Orderly, MarkerMatched, Verified, Ready, OwnershipConfirmed, OwnRepositoryFound;
      hide NoRepositoryCommands, NoBucketCheck, CacheWasSet, BucketVerified;
      if req.policyValid && config == Differing {
        var ok := Answer();
        Note(CacheSet(ok));
      }
    }

    /** The ownership checks that come before the repository commands. */
    method PreCheck() returns (ok: bool)
      requires Valid() && NoRepositoryCommands(log) && NoBucketCheck(log)
      modifies `log
      ensures Valid() && NoRepositoryCommands(log) && (smooth ==> ok)
      ensures MarkerMatched(log) == old(MarkerMatched(log)) && CacheWasSet(log) == old(CacheWasSet(log))
      ensures ok && BucketBound(spec, mode, req) ==> BucketVerified(log)
    {
      hide Orderly, MarkerMatched, Verified, Ready, OwnershipConfirmed, OwnRepositoryFound;
      hide NoRepositoryCommands, NoBucketCheck, CacheWasSet, BucketVerified;
      ok := true;
      if spec.kind == S3 && mode != Initialize && !Skips(mode, req) {
        ok := Answer();
        Note(VerifyS3(ok));
        return;
      }
      if Bound(spec, mode, req) {
        if mode == Mode.Connect && !req.allowAdoption {
          ghost var wrote;
          ok, wrote := VerifyOwnership(false);
        } else {
          ok := Answer();
          Note(CheckIfPresent(ok));
        }
      }
    }

    /** The log goes on: what was verified stays verified, and the cache is not set any more. */
    twostate predicate Extended()
      reads this
    {
      && Valid() && old(log) <= log && CacheWasSet(log) == old(CacheWasSet(log))
      && (old(BucketVerified(log)) ==> BucketVerified(log))
    }

    /** The last event is a successful status. */
    ghost predicate JustReady()
      reads this
    {
      Ready(log) && log != [] && log[|log| - 1] == Status(true)
    }

    /** The commands of an initialization, up to the closing status; `verified` when that has already run. */
    method RunInitialize(existed: bool) returns (ok: bool, verified: bool)
      requires Valid() && mode == Initialize && (existed <==> MarkerMatched(log))
      modifies `log
      ensures Extended() && (smooth ==> ok)
      ensures ok && verified ==> JustReady()
    {
      hide Orderly, MarkerMatched, Verified, Ready, OwnershipConfirmed, OwnRepositoryFound;
      hide NoRepositoryCommands, NoBucketCheck, CacheWasSet, BucketVerified;
      var result: Creation := *;
      if smooth { result := Created; }
      Note(Create(result));
      if result == Created { return true, false; }
      if result == NotCreated || !existed { return false, false; }
      ok := RunConnect();
      if !ok { return false, false; }
      ok := RunStatus();
      verified := ok;
    }

    /** The commands of a connection, up to the closing status; `done` when the first status sufficed. */
    method RunConnection() returns (ok: bool, verified: bool, done: bool)
      requires Valid() && mode == Mode.Connect && (BucketBound(spec, mode, req) ==> BucketVerified(log))
      modifies `log
      ensures Extended() && (smooth ==> (ok <==> config != Unstatable))
      ensures ok && (verified || done) ==> JustReady()
      ensures done ==> verified
    {
      hide Orderly, MarkerMatched, Verified, Ready, OwnershipConfirmed, OwnRepositoryFound;
      hide NoRepositoryCommands, NoBucketCheck, CacheWasSet, BucketVerified;
      ok, verified, done := config != Unstatable, false, false;
      if !ok { return; }
      if config != Missing {
        var live := RunStatus();
        if live { return true, true, true; }
      }
      var connected := RunConnect();
      if !connected {
        ok := RunStatus();
        verified := ok;
      }
    }

    /** The closing status, with one reconnection when connecting. */
    method CloseWithStatus() returns (ok: bool)
      requires Valid() && (BucketBound(spec, mode, req) ==> BucketVerified(log))
      modifies `log
      ensures Extended() && (smooth ==> ok)
      ensures ok ==> JustReady()
    {
      hide Orderly, MarkerMatched, Verified, Ready, OwnershipConfirmed, OwnRepositoryFound;
      hide NoRepositoryCommands, NoBucketCheck, CacheWasSet, BucketVerified;
      ok := RunStatus();
      if ok || mode == Initialize { return; }
      ok := RunConnect();
      if ok { ok := RunStatus(); }
    }

    /** The ownership check after the last command. */
    method ConfirmOwnership() returns (ok: bool)
      requires Valid() && JustReady()
      modifies `log
      ensures Extended() && (smooth ==> ok) && (ok ==> Ready(log))
      ensures ok && Bound(spec, mode, req) ==> OwnershipConfirmed(log, req.allowAdoption)
    {
      hide Orderly, MarkerMatched, Verified, Ready, OwnershipConfirmed, OwnRepositoryFound;
      hide NoRepositoryCommands, NoBucketCheck, CacheWasSet, BucketVerified;
      ok := true;
      if Bound(spec, mode, req) {
        ghost var wrote;
        ok, wrote := VerifyOwnership(req.allowAdoption);
      }
    }

    /** `prepareManagedRepositoryLocked`. */
    method Prepare() returns (ready: bool)
      requires log == []
      modifies `log
      // However it ends: initialization connects only to a repository it can prove to be its own; a connection
      // never creates a repository, claims one or looks for its own marker, and writes a marker only by an
      // allowed adoption, directly after a successful status; without adoption a bound repository is verified
      // before its mount is written to; a bucket is verified before any repository command.
      ensures Orderly(log, spec, mode, req, config)
      // Ready means: the last command is a successful status, and then the ownership check passed.
      ensures ready ==> Ready(log)
      ensures ready && Bound(spec, mode, req) ==> OwnershipConfirmed(log, req.allowAdoption)
      ensures ready ==> !(spec.kind == KopiaServer && mode == Initialize)
      // But a command does run before a bucket is checked: exactly when the cache has to be set.
      ensures ready && BucketBound(spec, mode, req) ==>
                BucketVerified(log) && (CommandBeforeBucket(log) <==> SetsCache(req, config))
      // When nothing fails the outcome is decided by the request and the config file.
      ensures smooth ==>
                (ready <==>
                   && !(spec.kind == KopiaServer && mode == Initialize)
                   && !(mode == Mode.Connect && config == Unstatable))
    {
      hide Orderly, MarkerMatched, Verified, Ready, OwnershipConfirmed, OwnRepositoryFound;
      hide NoRepositoryCommands, NoBucketCheck, CacheWasSet, BucketVerified, CommandBeforeBucket;
      NothingAsked();
      ready := Answer();  // process environment, S3 invalidation
      if !ready { return; }
      if spec.kind == Nas {
        ready := PrepareMount();
        if !ready { return; }
      }
      var existed;
      ready, existed := PrepareInitialize();
      if !ready { return; }
      ApplyCachePolicy();
      ready := PreCheck();
      if !ready { return; }
      if spec.kind == KopiaServer && mode == Initialize { return false; }
      ready := RunCommands(existed);
      if ready && BucketBound(spec, mode, req) { PhasesOf(); }
    }

    lemma NothingAsked()
      requires log == []
      ensures Valid() && Untouched() && !MarkerMatched(log)
    {
    }

    lemma PhasesOf()
      requires Valid() && BucketVerified(log)
      ensures CommandBeforeBucket(log) <==> CacheWasSet(log)
    {
      hide CommandBeforeBucket, CacheWasSet, BucketVerified, Phased;
      CommandBeforeBucketIff(log);
    }

    /** From the first repository command to the answer. */
    method RunCommands(existed: bool) returns (ready: bool)
      requires Valid() && (mode == Initialize ==> (existed <==> MarkerMatched(log)))
      requires BucketBound(spec, mode, req) ==> BucketVerified(log)
      modifies `log
      ensures Extended() && (ready ==> Ready(log))
      ensures ready && Bound(spec, mode, req) ==> OwnershipConfirmed(log, req.allowAdoption)
      ensures smooth ==> (ready <==> !(mode == Mode.Connect && config == Unstatable))
    {
      hide Orderly, MarkerMatched, Verified, Ready, OwnershipConfirmed, OwnRepositoryFound;
      hide NoRepositoryCommands, NoBucketCheck, CacheWasSet, BucketVerified;
      var verified, done := false, false;
      if mode == Initialize {
        ready, verified := RunInitialize(existed);
      } else {
        ready, verified, done := RunConnection();
      }
      if !ready { return; }
      if !verified {
        ready := CloseWithStatus();
        if !ready { return; }
      }
      ready := ConfirmOwnership();
      if !ready { return; }
      if spec.kind == S3 && !done {
        ready := Answer();  // the connection fingerprint
      }
    }
  }

  /** A run in which a command precedes the check of the bucket: connecting, with nothing failing, with a config
      file whose cache policy differs. */
  method CacheSetComesFirst(owned: bool, managed: bool) returns (p: Preparation, ready: bool)
    ensures p.spec.kind == S3 && p.mode == Mode.Connect && ready && BucketVerified(p.log)
    ensures CommandBeforeBucket(p.log)
  {
    p := new Preparation(
      Spec(S3, owned, managed), Mode.Connect, Request(false, false, false, false, true), Differing, true);
    ready := p.Prepare();
  }
}
