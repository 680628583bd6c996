/** Which patterns a managed backup ignores, and which sources it accepts. */
module BackupPolicy {
  import opened GoText
  import opened Occurrences
  import opened Wrappers

  // ---- Pattern lists ----

  function Trimmed(values: seq<string>): (r: seq<string>)
    ensures |r| == |values| && forall i | 0 <= i < |values| :: r[i] == TrimSpace(values[i])
  {
    seq(|values|, i requires 0 <= i < |values| => TrimSpace(values[i]))
  }

  /** `out` is the values of `from` that are neither empty nor excluded, each once, in order of first
      appearance. */
  ghost predicate Distilled(from: seq<string>, excluded: seq<string>, out: seq<string>) {
    (forall x :: x in out <==> x in from && x != "" && x !in excluded) && Ordered(from, out)
  }

  lemma DistilledExtends(from: seq<string>, excluded: seq<string>, out: seq<string>, value: string)
    requires Distilled(from, excluded, out)
    ensures Distilled(from + [value], excluded,
                      if value == "" || value in excluded || value in out then out else out + [value])
  {
    OrderedExtends(from, value, out);
  }

  /** The loop the two list functions share: trim, drop empty, excluded and repeated values. */
  method Collect(values: seq<string>, excluded: seq<string>) returns (out: seq<string>)
    ensures Distilled(Trimmed(values), excluded, out)
  {
    hide Ordered;
    var seen: set<string> := {};
    out := [];
    NothingDistilled(excluded);
    assert Trimmed(values)[..0] == [];
    for k := 0 to |values|
      invariant Distilled(Trimmed(values)[..k], excluded, out)
      invariant forall x :: x in seen <==> x in out
    {
      var value := TrimSpace(values[k]);
      assert Trimmed(values)[..k + 1] == Trimmed(values)[..k] + [value];
      DistilledExtends(Trimmed(values)[..k], excluded, out, value);
      if value == "" || value in excluded || value in seen { continue; }
      seen := seen + {value};
      out := out + [value];
    }
    assert Trimmed(values)[..|values|] == Trimmed(values);
  }

  lemma NothingDistilled(excluded: seq<string>)
    ensures Distilled([], excluded, [])
  {
  }

  function Flattened(groups: seq<seq<string>>): seq<string> {
    if groups == [] then [] else Flattened(groups[..|groups| - 1]) + groups[|groups| - 1]
  }

  /** `protectedPatternValues`. */
  method ProtectedPatternValues(groups: seq<seq<string>>) returns (out: seq<string>)
    ensures Distilled(Trimmed(Flattened(groups)), [], out)
  {
    out := Collect(Flattened(groups), []);
  }

  /** `managedIgnorePatterns`: what the user adds, then everything protected. */
  method ManagedIgnorePatterns(user: seq<string>, groups: seq<seq<string>>)
    returns (applied: seq<string>, ghost own: seq<string>, ghost guarded: seq<string>)
    ensures applied == own + guarded
    ensures Distilled(Trimmed(Flattened(groups)), [], guarded)
    ensures Distilled(Trimmed(user), guarded, own)
    ensures forall i, j | 0 <= i < j < |applied| :: applied[i] != applied[j]
  {
    var protected := ProtectedPatternValues(groups);
    var out := Collect(user, protected);
    applied, own, guarded := out + protected, out, protected;
    OrderedIsDistinct(Trimmed(user), own);
    OrderedIsDistinct(Trimmed(Flattened(groups)), guarded);
    assert forall i | 0 <= i < |own| :: own[i] in own;
    assert forall i | 0 <= i < |guarded| :: guarded[i] in guarded;
  }

  lemma OrderedIsDistinct(from: seq<string>, out: seq<string>)
    requires Ordered(from, out)
    ensures forall i, j | 0 <= i < j < |out| :: out[i] != out[j]
  {
    forall i, j | 0 <= i < j < |out| ensures out[i] != out[j] {
      assert First(from, out[i]) < First(from, out[j]);
    }
  }

  datatype StoredPolicy = StoredPolicy(ignore: seq<string>, dotIgnoreFiles: seq<string>, noParentDotFiles: bool)

  /** `verifyManagedBackupProtection` after the stored policy has been read. */
  method VerifyProtection(protected: seq<string>, stored: StoredPolicy) returns (ok: bool)
    ensures ok <==>
            (forall v | v in protected :: TrimSpace(v) == "" || TrimSpace(v) in Trimmed(stored.ignore)) &&
            ((forall v | v in protected :: TrimSpace(v) == "") ||
             (stored.noParentDotFiles && stored.dotIgnoreFiles == []))
  {
    hide TrimSpace, Trimmed, Ordered, Flattened;
    var required := ProtectedPatternValues([protected]);
    FlattenOne(protected);
    RequiredMembers(protected, required);
    if |required| == 0 { return true; }
    assert required[0] in required;
    var applied := set p | p in stored.ignore :: TrimSpace(p);
    TrimmedMembers(stored.ignore);
    for k := 0 to |required|
      invariant forall i | 0 <= i < k :: required[i] in Trimmed(stored.ignore)
    {
      if required[k] !in applied {
        assert required[k] in required;
        ghost var v :| v in protected && TrimSpace(v) == required[k];
        return false;
      }
    }
    ok := stored.noParentDotFiles && |stored.dotIgnoreFiles| == 0;
  }

  lemma FlattenOne(values: seq<string>)
    ensures Flattened([values]) == values
  {
    assert [values][..0] == [];
    assert [] + values == values;
  }

  lemma RequiredMembers(protected: seq<string>, required: seq<string>)
    requires Distilled(Trimmed(protected), [], required)
    ensures forall x | x in required :: x != "" && exists v :: v in protected && TrimSpace(v) == x
    ensures forall v | v in protected :: TrimSpace(v) == "" || TrimSpace(v) in required
  {
    TrimmedMembers(protected);
  }

  lemma TrimmedMembers(values: seq<string>)
    ensures forall x :: x in Trimmed(values) <==> exists v :: v in values && TrimSpace(v) == x
  {
    forall v | v in values ensures TrimSpace(v) in Trimmed(values) {
      var i :| 0 <= i < |values| && values[i] == v;
      assert Trimmed(values)[i] == TrimSpace(v);
    }
  }

  /** Storing the applied patterns sorted and without duplicates does not fail the verification: any stored list
      with the same elements holds every protected pattern. */
  lemma StoredOrderDoesNotMatter(
    user: seq<string>, protected: seq<string>, own: seq<string>, guarded: seq<string>, stored: seq<string>)
    requires Distilled(Trimmed(protected), [], guarded) && Distilled(Trimmed(user), guarded, own)
    requires forall x :: x in stored <==> x in own + guarded
    ensures forall v | v in protected :: TrimSpace(v) == "" || TrimSpace(v) in Trimmed(stored)
  {
    TrimmedMembers(protected);
    TrimmedMembers(stored);
    forall v | v in protected && TrimSpace(v) != "" ensures TrimSpace(v) in Trimmed(stored) {
      TrimSpaceIdempotent(v);
      assert TrimSpace(v) in Trimmed(protected) && TrimSpace(v) in guarded;
      assert TrimSpace(v) in own + guarded && TrimSpace(v) in stored;
    }
  }

  // ---- The boundary ----

  /** A canonical absolute path, component by component. */
  type Path = seq<string>

  predicate IsWithin(path: Path, root: Path) {
    root <= path
  }

  predicate Disjoint(a: Path, b: Path) {
    !IsWithin(a, b) && !IsWithin(b, a)
  }

  /** Components joined by slashes. */
  function Joined(p: Path): string {
    if |p| == 0 then "" else if |p| == 1 then p[0] else p[0] + "/" + Joined(p[1..])
  }

  /** `normalizeIgnorePattern`: slashes for backslashes, and none at either end. */
  function IgnorePattern(rel: Path): string {
    CutLeft(CutRight(Slashed(Joined(rel)), "/"), "/")
  }

  function Slashed(s: string): (r: string)
    ensures |r| == |s| && forall i | 0 <= i < |s| :: r[i] == if s[i] == '\\' then '/' else s[i]
  {
    seq(|s|, i requires 0 <= i < |s| => if s[i] == '\\' then '/' else s[i])
  }

  datatype Mounts = Mounts(repositories: Path, sources: Path, custom: Path)

  datatype Boundary = Boundary(ignorePatterns: seq<string>, excludedPaths: seq<Path>)

  /** What the platform's own rules say about a source: patterns and exclusions, or that it is protected. */
  datatype SystemRules = Rules(patterns: seq<string>, exclusions: seq<Path>) | Protected | RulesFailed

  /** `newBackupPathBoundary` on canonical paths; `mount` is the mount point of a task bound to a NAS. */
  method NewBackupPathBoundary(
    root: Path, mounts: Mounts, source: Path, mount: Option<Path>, rules: SystemRules)
    returns (b: Option<Boundary>)
    ensures b.Some? <==> ManagedMount(mounts, source, mount) || (!IsWithin(source, root) && rules.Rules?)
    ensures b.Some? && !ManagedMount(mounts, source, mount) ==>
              && (Disjoint(source, root) || IgnorePattern(root[|source|..]) in b.value.ignorePatterns)
              && (Disjoint(source, root) || root in b.value.excludedPaths)
              && rules.patterns <= b.value.ignorePatterns && rules.exclusions <= b.value.excludedPaths
  {
    var boundary := Boundary([], []);
    if mount.Some? {
      var point := mount.value;
      if (IsWithin(point, mounts.sources) || IsWithin(point, mounts.custom)) &&
         !IsWithin(point, mounts.repositories) && IsWithin(source, point) {
        return Some(boundary);
      }
    }
    if IsWithin(source, root) { return None; }
    if !rules.Rules? { return None; }
    boundary := Boundary(rules.patterns, rules.exclusions);
    if IsWithin(root, source) {
      boundary := Boundary(
        boundary.ignorePatterns + [IgnorePattern(root[|source|..])], boundary.excludedPaths + [root]);
    }
    b := Some(boundary);
  }

  /** A source below a managed source mount, which may lie inside the Agent root. */
  predicate ManagedMount(mounts: Mounts, source: Path, mount: Option<Path>) {
    mount.Some? &&
    (IsWithin(mount.value, mounts.sources) || IsWithin(mount.value, mounts.custom)) &&
    !IsWithin(mount.value, mounts.repositories) && IsWithin(source, mount.value)
  }

  /** Components of a path on disk. */
  predicate Plain(p: Path) {
    p != [] && forall c | c in p :: c != "" && '/' !in c
  }

  lemma {:induction false} JoinedEnds(p: Path)
    requires Plain(p)
    ensures Joined(p) != "" && Joined(p)[0] != '/' && Joined(p)[|Joined(p)| - 1] != '/'
  {
    assert p[0] in p && p[0][0] in p[0] && p[0][|p[0]| - 1] in p[0];
    if |p| > 1 {
      assert forall c | c in p[1..] :: c in p;
      JoinedEnds(p[1..]);
    }
  }

  lemma PatternIsPath(rel: Path)
    requires Plain(rel)
    ensures '\\' !in Joined(rel) ==> IgnorePattern(rel) == Joined(rel)
    ensures '\\' !in IgnorePattern(rel)
  {
    hide Joined, CutLeft, CutRight;
    var path := Joined(rel);
    JoinedEnds(rel);
    if '\\' !in path {
      assert Slashed(path) == path;
      NothingCut(path, "/");
    }
  }

  /** The pattern made from the root is, literally, the root's path exactly when that has no backslash - those
      are turned into slashes - and no space at either end - those are trimmed.  Otherwise the path is protected
      literally only if one of the system's own patterns happens to be it. */
  lemma RootIsNamedIff(rel: Path, patterns: seq<string>, guarded: seq<string>)
    requires Plain(rel) && Distilled(Trimmed(patterns + [IgnorePattern(rel)]), [], guarded)
    ensures var path := Joined(rel);
            path in guarded <==>
            path in Trimmed(patterns) || Writable(rel)
  {
    hide IsSpace, TrimSpace, IgnorePattern, Joined, Ordered;
    var path := Joined(rel);
    JoinedEnds(rel);
    PatternIsPath(rel);
    TrimmedPart(IgnorePattern(rel), '\\');
    TrimmedAppend(patterns, IgnorePattern(rel));
    TrimSpaceFixed(path);
  }

  lemma TrimmedAppend(values: seq<string>, value: string)
    ensures Trimmed(values + [value]) == Trimmed(values) + [TrimSpace(value)]
  {
    hide TrimSpace;
  }

  /** There are roots it does not name. */
  lemma RootCanBeUnnamed(guarded: seq<string>)
    requires Distilled(Trimmed([] + [IgnorePattern(["a\\b"])]), [], guarded)
    ensures Joined(["a\\b"]) !in guarded
  {
    hide IgnorePattern, TrimSpace, IsSpace;
    var root := "a\\b";
    assert root[1] in root && '/' !in root && Joined([root]) == root;
    assert Trimmed([]) == [];
    RootIsNamedIff([root], [], guarded);
  }

  // ---- From the source to the stored policy ----

  /** How the policy tool keeps a list: the same elements, in any order. */
  ghost predicate Keeps(store: seq<string> -> seq<string>) {
    forall list, x :: x in store(list) <==> x in list
  }

  /** A source is bounded, its patterns are applied with the user's, stored, and verified.  What is stored is,
      in whatever order, every nonempty trimmed pattern; so an accepted source passes the verification exactly
      when it needs no protection or dot-ignore files are off, and below an accepted source the Agent root is
      ignored by its own path if that can be written as a pattern. */
  method ProtectSource(
    root: Path, mounts: Mounts, source: Path, mount: Option<Path>, rules: SystemRules, user: seq<string>,
    store: seq<string> -> seq<string>, dotIgnoreFiles: seq<string>, noParentDotFiles: bool)
    returns (b: Option<Boundary>, stored: seq<string>, verified: bool)
    requires Keeps(store)
    ensures b.Some? <==> ManagedMount(mounts, source, mount) || (!IsWithin(source, root) && rules.Rules?)
    ensures b.Some? ==> forall x :: x in stored <==>
              x != "" && (x in Trimmed(user) || x in Trimmed(b.value.ignorePatterns))
    ensures b.Some? ==>
              (verified <==>
                 || (noParentDotFiles && dotIgnoreFiles == [])
                 || (forall v | v in b.value.ignorePatterns :: TrimSpace(v) == ""))
    ensures b.Some? && !ManagedMount(mounts, source, mount) && IsWithin(root, source) ==>
              Writable(root[|source|..]) ==> Joined(root[|source|..]) in stored
  {
    hide TrimSpace, IgnorePattern, Ordered, Joined, Writable;
    stored, verified := [], false;
    b := NewBackupPathBoundary(root, mounts, source, mount, rules);
    if b.None? { return; }
    var protected := b.value.ignorePatterns;
    var applied, own, guarded := ManagedIgnorePatterns(user, [protected]);
    FlattenOne(protected);
    stored := store(applied);
    StoredOrderDoesNotMatter(user, protected, own, guarded, stored);
    verified := VerifyProtection(protected, StoredPolicy(stored, dotIgnoreFiles, noParentDotFiles));
    if IsWithin(root, source) && Writable(root[|source|..]) {
      WritablePattern(root[|source|..]);
      TrimmedMembers(protected);
    }
  }

  /** A path that is its own pattern. */
  predicate Writable(rel: Path) {
    var path := Joined(rel);
    Plain(rel) && '\\' !in path && path != "" && !IsSpace(path[0]) && !IsSpace(path[|path| - 1])
  }

  lemma WritablePattern(rel: Path)
    requires Writable(rel)
    ensures Joined(rel) != "" && TrimSpace(IgnorePattern(rel)) == Joined(rel)
  {
    hide IgnorePattern;
    PatternIsPath(rel);
    TrimSpaceFixed(Joined(rel));
  }
}
