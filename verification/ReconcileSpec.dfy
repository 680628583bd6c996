/** What reconciling a workspace directory tree with a snapshot means.

    A tree maps every path below the workspace root, and the root itself, to its kind. */
module ReconcileSpec {
  type Name = string
  type Path = seq<Name>

  datatype Kind = File | Dir | Link

  type Tree = map<Path, Kind>

  datatype Row = Row(name: Name, node: Snapshot)

  /** A pinned snapshot: what its listings say, all the way down. */
  datatype Snapshot = SnapshotFile | SnapshotDir(rows: seq<Row>)

  const MAX_ENTRIES := 250000
  const METADATA := ".sourcelens"
  const MARKER := ".sourcelens-datasource.json"

  predicate HasPrefix(s: string, prefix: string) {
    prefix <= s
  }

  predicate HasSuffix(s: string, suffix: string) {
    |suffix| <= |s| && s[|s| - |suffix|..] == suffix
  }

  function TrimSuffix(s: string, suffix: string): string {
    if HasSuffix(s, suffix) then s[..|s| - |suffix|] else s
  }

  /** Names the reconciliation accepts from a snapshot. */
  predicate SafeName(name: Name) {
    && name != "" && name != "." && name != ".." && '/' !in name && '\\' !in name
    && !HasSuffix(name, METADATA) && !HasPrefix(name, METADATA)
  }

  predicate Acceptable(rows: seq<Row>) {
    && |rows| <= MAX_ENTRIES
    && (forall i | 0 <= i < |rows| :: SafeName(rows[i].name))
    && (forall i, j | 0 <= i < j < |rows| :: rows[i].name != rows[j].name)
  }

  predicate Listed(rows: seq<Row>, name: Name) {
    exists i | 0 <= i < |rows| :: rows[i].name == name
  }

  /** A sidecar of a listed name. */
  predicate Sidecar(rows: seq<Row>, name: Name) {
    HasSuffix(name, METADATA) && Listed(rows, TrimSuffix(name, METADATA))
  }

  /** What stays in a directory whose listing is `rows`. */
  predicate Kept(rows: seq<Row>, marker: bool, name: Name) {
    Listed(rows, name) || (marker && name == MARKER) || (!HasPrefix(name, METADATA) && Sidecar(rows, name))
  }

  /** Whether a path relative to a directory belongs to its reconciled tree: its first name stays, and below a
      listed directory the rest of it belongs to that directory's. */
  ghost predicate Retained(p: Path, node: Snapshot, marker: bool)
    requires node.SnapshotDir?
    decreases |p|
  {
    p == [] ||
    (Kept(node.rows, marker, p[0]) &&
     forall i | 0 <= i < |node.rows| && node.rows[i].name == p[0] && node.rows[i].node.SnapshotDir? ::
       Retained(p[1..], node.rows[i].node, false))
  }

  /** Every path's parent is a directory. */
  ghost predicate WellFormed(t: Tree) {
    && [] in t && t[[]] == Dir
    && forall p | p in t && p != [] :: p[..|p| - 1] in t && t[p[..|p| - 1]] == Dir
  }

  /** The check a directory must pass before anything in it is removed. */
  ghost predicate Verified(t: Tree, at: Path, rows: seq<Row>) {
    forall i | 0 <= i < |rows| ::
      var p := at + [rows[i].name];
      p in t && t[p] == if rows[i].node.SnapshotDir? then Dir else File
  }

  /** Every entry of the snapshot is there with its type, at every level. */
  ghost predicate Complete(t: Tree, at: Path, node: Snapshot)
    requires node.SnapshotDir?
    decreases node
  {
    && Acceptable(node.rows)
    && Verified(t, at, node.rows)
    && forall i | 0 <= i < |node.rows| && node.rows[i].node.SnapshotDir? ::
         Complete(t, at + [node.rows[i].name], node.rows[i].node)
  }

  /** What no run may remove, however it ends: below the directory `at`, everything if its listing is refused
      or its entries fail verification; otherwise what stays, and unknown SourceLens metadata; and below a
      listed directory what is protected there. */
  ghost predicate Protected(t: Tree, at: Path, p: Path, node: Snapshot, marker: bool)
    requires node.SnapshotDir?
    decreases |p|
  {
    || p == [] || !Acceptable(node.rows) || !Verified(t, at, node.rows)
    || (HasPrefix(p[0], METADATA) && !Listed(node.rows, p[0]))
    || (Kept(node.rows, marker, p[0]) &&
        forall i | 0 <= i < |node.rows| && node.rows[i].name == p[0] && node.rows[i].node.SnapshotDir? ::
          Protected(t, at + [p[0]], p[1..], node.rows[i].node, false))
  }

  predicate Below(at: Path, p: Path) {
    |at| <= |p| && p[..|at|] == at
  }

  ghost function Under(t: Tree, at: Path): set<Path> {
    set p | p in t && Below(at, p)
  }

  /** `t'` is `t` without some paths. */
  ghost predicate Within(t': Tree, t: Tree) {
    forall p | p in t' :: p in t && t'[p] == t[p]
  }

  /** The trees agree at and below `at`. */
  ghost predicate SameBelow(t: Tree, t': Tree, at: Path) {
    forall p | Below(at, p) :: (p in t <==> p in t') && (p in t ==> t[p] == t'[p])
  }

  lemma {:induction false} RetainedIsProtected(t: Tree, at: Path, p: Path, node: Snapshot, marker: bool)
    requires node.SnapshotDir? && Retained(p, node, marker)
    ensures Protected(t, at, p, node, marker)
    decreases |p|
  {
    if p != [] {
      forall i | 0 <= i < |node.rows| && node.rows[i].name == p[0] && node.rows[i].node.SnapshotDir?
        ensures Protected(t, at + [p[0]], p[1..], node.rows[i].node, false)
      {
        RetainedIsProtected(t, at + [p[0]], p[1..], node.rows[i].node, false);
      }
    }
  }

  /** Protection below `at` depends only on what is below `at`. */
  lemma {:induction false} ProtectedFrame(t: Tree, t': Tree, at: Path, p: Path, node: Snapshot, marker: bool)
    requires node.SnapshotDir? && SameBelow(t, t', at)
    ensures Protected(t, at, p, node, marker) <==> Protected(t', at, p, node, marker)
    decreases |p|
  {
    VerifiedFrame(t, t', at, node.rows);
    if p != [] {
      forall i | 0 <= i < |node.rows| && node.rows[i].name == p[0] && node.rows[i].node.SnapshotDir?
        ensures Protected(t, at + [p[0]], p[1..], node.rows[i].node, false) <==>
                Protected(t', at + [p[0]], p[1..], node.rows[i].node, false)
      {
        SameBelowDeeper(t, t', at, p[0]);
        ProtectedFrame(t, t', at + [p[0]], p[1..], node.rows[i].node, false);
      }
    }
  }

  lemma VerifiedFrame(t: Tree, t': Tree, at: Path, rows: seq<Row>)
    requires SameBelow(t, t', at)
    ensures Verified(t, at, rows) <==> Verified(t', at, rows)
  {
    assert forall name: Name :: Below(at, at + [name]);
  }

  lemma SameBelowDeeper(t: Tree, t': Tree, at: Path, name: Name)
    requires SameBelow(t, t', at)
    ensures SameBelow(t, t', at + [name])
  {
    forall p | Below(at + [name], p) ensures Below(at, p) {
      BelowChild(at, name, p);
    }
  }

  lemma {:induction false} CompleteFrame(t: Tree, t': Tree, at: Path, node: Snapshot)
    requires node.SnapshotDir? && SameBelow(t, t', at) && Complete(t, at, node)
    ensures Complete(t', at, node)
    decreases node
  {
    VerifiedFrame(t, t', at, node.rows);
    forall i | 0 <= i < |node.rows| && node.rows[i].node.SnapshotDir?
      ensures Complete(t', at + [node.rows[i].name], node.rows[i].node)
    {
      SameBelowDeeper(t, t', at, node.rows[i].name);
      CompleteFrame(t, t', at + [node.rows[i].name], node.rows[i].node);
    }
  }

  /** A path below `at + [name]` is a path below `at` that goes on with `name`. */
  lemma BelowChild(at: Path, name: Name, p: Path)
    ensures Below(at + [name], p) <==> Below(at, p) && |at| < |p| && p[|at|] == name
  {
    if |at| < |p| {
      assert p[..|at| + 1] == p[..|at|] + [p[|at|]];
    }
  }

  /** The reconciled tree read without its recursion: at each level the first names that remain are the listed
      ones, sidecars of listed ones, and at the root the permitted marker. */
  ghost predicate AtLevel(node: Snapshot, p: Path, marker: bool)
    requires node.SnapshotDir?
    decreases |p|
  {
    p != [] ==>
      || (exists i | 0 <= i < |node.rows| ::
            node.rows[i].name == p[0] &&
            (node.rows[i].node.SnapshotDir? ==> AtLevel(node.rows[i].node, p[1..], false)))
      || (marker && p[0] == MARKER)
      || Sidecar(node.rows, p[0])
  }

  lemma {:induction false} RetainedAtLevel(p: Path, node: Snapshot, marker: bool)
    requires node.SnapshotDir? && Retained(p, node, marker)
    ensures AtLevel(node, p, marker)
    decreases |p|
  {
    if p != [] && Listed(node.rows, p[0]) {
      var i :| 0 <= i < |node.rows| && node.rows[i].name == p[0];
      if node.rows[i].node.SnapshotDir? { RetainedAtLevel(p[1..], node.rows[i].node, false); }
    }
  }

  // ---- From one folder to the next ----

  /** Nothing protected below `at` was lost between `t0` and `t`. */
  ghost predicate SafeBelow(t0: Tree, t: Tree, at: Path, node: Snapshot, marker: bool)
    requires node.SnapshotDir?
  {
    forall p | p in t0 && Below(at, p) && Protected(t0, at, p[|at|..], node, marker) :: p in t
  }

  /** Below `at`, `t` is the reconciled `t0`. */
  ghost predicate ExactBelow(t0: Tree, t: Tree, at: Path, node: Snapshot, marker: bool)
    requires node.SnapshotDir?
  {
    Complete(t, at, node) &&
    forall p | p in t0 && Below(at, p) :: p in t <==> Retained(p[|at|..], node, marker)
  }

  lemma FrameBelow(t0: Tree, t1: Tree, t: Tree, t': Tree, at: Path, node: Snapshot, marker: bool)
    requires node.SnapshotDir? && SameBelow(t0, t1, at) && SameBelow(t, t', at)
    ensures SafeBelow(t0, t, at, node, marker) ==> SafeBelow(t1, t', at, node, marker)
    ensures ExactBelow(t0, t, at, node, marker) ==> ExactBelow(t1, t', at, node, marker)
  {
    if SafeBelow(t0, t, at, node, marker) {
      forall p | p in t1 && Below(at, p) && Protected(t1, at, p[|at|..], node, marker) ensures p in t' {
        ProtectedFrame(t0, t1, at, p[|at|..], node, marker);
      }
    }
    if ExactBelow(t0, t, at, node, marker) { CompleteFrame(t, t', at, node); }
  }

  /** Below one of the first `k` listed directories. */
  ghost predicate Visited(at: Path, rows: seq<Row>, k: nat, p: Path) {
    exists i | 0 <= i < k && i < |rows| :: rows[i].node.SnapshotDir? && Below(at + [rows[i].name], p)
  }

  /** The state of a descent after `k` rows: only visited folders changed, and each is safe. */
  ghost predicate Descending(t0: Tree, t: Tree, at: Path, rows: seq<Row>, k: nat) {
    && k <= |rows| && Within(t, t0)
    && (forall p | p in t0 && !Visited(at, rows, k, p) :: p in t)
    && (forall i | 0 <= i < k && rows[i].node.SnapshotDir? ::
          SafeBelow(t0, t, at + [rows[i].name], rows[i].node, false))
  }

  /** ... and each of them is reconciled. */
  ghost predicate Descended(t0: Tree, t: Tree, at: Path, rows: seq<Row>, k: nat) {
    k <= |rows| &&
    forall i | 0 <= i < k && rows[i].node.SnapshotDir? ::
      ExactBelow(t0, t, at + [rows[i].name], rows[i].node, false)
  }

  lemma ApartBelow(t: Tree, t': Tree, at: Path, name: Name, other: Name)
    requires Within(t', t) && name != other
    requires forall p | p in t && !Below(at + [name], p) :: p in t'
    ensures SameBelow(t, t', at + [other])
  {
    forall p | Below(at + [other], p) ensures p in t <==> p in t' {
      BelowChild(at, name, p);
      BelowChild(at, other, p);
    }
  }

  lemma UnvisitedBelow(t0: Tree, t: Tree, at: Path, rows: seq<Row>, k: nat)
    requires Acceptable(rows) && k < |rows| && Descending(t0, t, at, rows, k)
    ensures SameBelow(t0, t, at + [rows[k].name])
  {
    forall p | Below(at + [rows[k].name], p) ensures !Visited(at, rows, k, p) {
      forall i | 0 <= i < k ensures !Below(at + [rows[i].name], p) {
        BelowChild(at, rows[i].name, p);
        BelowChild(at, rows[k].name, p);
      }
    }
  }

  /** Going into the next listed directory. */
  lemma DescendStep(t0: Tree, t: Tree, t': Tree, at: Path, rows: seq<Row>, k: nat)
    requires Acceptable(rows) && k < |rows| && rows[k].node.SnapshotDir?
    requires Descending(t0, t, at, rows, k) && Within(t', t)
    requires forall p | p in t && !Below(at + [rows[k].name], p) :: p in t'
    requires SafeBelow(t, t', at + [rows[k].name], rows[k].node, false)
    ensures Descending(t0, t', at, rows, k + 1)
    ensures Descended(t0, t, at, rows, k) && ExactBelow(t, t', at + [rows[k].name], rows[k].node, false) ==>
              Descended(t0, t', at, rows, k + 1)
  {
    hide Complete, Protected, Retained, Verified, Below;
    var child := at + [rows[k].name];
    UnvisitedBelow(t0, t, at, rows, k);
    FrameBelow(t, t0, t', t', child, rows[k].node, false);
    forall i | 0 <= i < k && rows[i].node.SnapshotDir?
      ensures SafeBelow(t0, t', at + [rows[i].name], rows[i].node, false)
      ensures Descended(t0, t, at, rows, k) ==> ExactBelow(t0, t', at + [rows[i].name], rows[i].node, false)
    {
      ApartBelow(t, t', at, rows[k].name, rows[i].name);
      FrameBelow(t0, t0, t, t', at + [rows[i].name], rows[i].node, false);
    }
    forall p | p in t0 && !Visited(at, rows, k + 1, p) ensures p in t' {
      assert !Visited(at, rows, k, p);
    }
  }

  lemma ProtectedInChild(t: Tree, at: Path, node: Snapshot, marker: bool, i: nat, p: Path)
    requires node.SnapshotDir? && Acceptable(node.rows) && Verified(t, at, node.rows)
    requires i < |node.rows| && node.rows[i].node.SnapshotDir? && Below(at + [node.rows[i].name], p)
    requires Below(at, p) && Protected(t, at, p[|at|..], node, marker)
    ensures Protected(t, at + [node.rows[i].name], p[|at| + 1..], node.rows[i].node, false)
  {
    BelowChild(at, node.rows[i].name, p);
    var q := p[|at|..];
    assert q[0] == node.rows[i].name && q[1..] == p[|at| + 1..];
  }

  lemma RetainedInChild(at: Path, node: Snapshot, marker: bool, i: nat, p: Path)
    requires node.SnapshotDir? && Acceptable(node.rows)
    requires i < |node.rows| && node.rows[i].node.SnapshotDir? && Below(at + [node.rows[i].name], p)
    requires Below(at, p)
    ensures Retained(p[|at|..], node, marker) <==> Retained(p[|at| + 1..], node.rows[i].node, false)
  {
    BelowChild(at, node.rows[i].name, p);
    var q := p[|at|..];
    assert q[0] == node.rows[i].name && q[1..] == p[|at| + 1..];
    assert forall j | 0 <= j < |node.rows| && node.rows[j].name == q[0] :: j == i;
  }

  /** A folder whose listed directories were visited safely is safe. */
  lemma DescentIsSafe(t0: Tree, t: Tree, at: Path, node: Snapshot, marker: bool, k: nat)
    requires node.SnapshotDir? && Acceptable(node.rows) && Verified(t0, at, node.rows)
    requires Descending(t0, t, at, node.rows, k)
    ensures SafeBelow(t0, t, at, node, marker)
  {
    hide Protected, Verified, Acceptable;
    forall p | p in t0 && Below(at, p) && Protected(t0, at, p[|at|..], node, marker) ensures p in t {
      if Visited(at, node.rows, k, p) {
        var i :| 0 <= i < k && node.rows[i].node.SnapshotDir? && Below(at + [node.rows[i].name], p);
        ProtectedInChild(t0, at, node, marker, i, p);
        assert SafeBelow(t0, t, at + [node.rows[i].name], node.rows[i].node, false);
      }
    }
  }

  /** A folder where only kept names were left and every listed directory is reconciled is reconciled. */
  lemma DescentIsExact(t0: Tree, t: Tree, at: Path, node: Snapshot, marker: bool)
    requires node.SnapshotDir? && Acceptable(node.rows) && Verified(t0, at, node.rows)
    requires Descending(t0, t, at, node.rows, |node.rows|) && Descended(t0, t, at, node.rows, |node.rows|)
    requires forall p | p in t0 && Below(at, p) && |at| < |p| :: Kept(node.rows, marker, p[|at|])
    ensures ExactBelow(t0, t, at, node, marker)
  {
    var rows := node.rows;
    forall i | 0 <= i < |rows| ensures at + [rows[i].name] in t {
      var p := at + [rows[i].name];
      if Visited(at, rows, |rows|, p) {
        var j :| 0 <= j < |rows| && rows[j].node.SnapshotDir? && Below(at + [rows[j].name], p);
        assert p == at + [rows[j].name] && p[|p|..] == [];
        assert ExactBelow(t0, t, p, rows[j].node, false);
      }
    }
    forall p | p in t0 && Below(at, p) ensures p in t <==> Retained(p[|at|..], node, marker) {
      RetainedSplits(t0, t, at, node, marker, p);
    }
  }

  lemma RetainedSplits(t0: Tree, t: Tree, at: Path, node: Snapshot, marker: bool, p: Path)
    requires node.SnapshotDir? && Acceptable(node.rows)
    requires Descending(t0, t, at, node.rows, |node.rows|) && Descended(t0, t, at, node.rows, |node.rows|)
    requires p in t0 && Below(at, p) && (|at| < |p| ==> Kept(node.rows, marker, p[|at|]))
    ensures p in t <==> Retained(p[|at|..], node, marker)
  {
    hide Complete, Protected, SafeBelow, Acceptable, Retained, Below;
    var rows := node.rows;
    if Visited(at, rows, |rows|, p) {
      var i :| 0 <= i < |rows| && rows[i].node.SnapshotDir? && Below(at + [rows[i].name], p);
      RetainedInChild(at, node, marker, i, p);
      assert ExactBelow(t0, t, at + [rows[i].name], rows[i].node, false);
      BelowChild(at, rows[i].name, p);
    } else {
      UnvisitedIsRetained(at, node, marker, p);
    }
  }

  lemma UnvisitedIsRetained(at: Path, node: Snapshot, marker: bool, p: Path)
    requires node.SnapshotDir? && Below(at, p) && !Visited(at, node.rows, |node.rows|, p)
    requires |at| < |p| ==> Kept(node.rows, marker, p[|at|])
    ensures Retained(p[|at|..], node, marker)
  {
    var rows, q := node.rows, p[|at|..];
    if q != [] {
      forall i | 0 <= i < |rows| && rows[i].name == q[0] ensures !rows[i].node.SnapshotDir? {
        BelowChild(at, rows[i].name, p);
      }
    }
  }

  lemma NothingToVisit(t0: Tree, t: Tree, at: Path, rows: seq<Row>, k: nat)
    requires k < |rows| && !rows[k].node.SnapshotDir?
    requires Descending(t0, t, at, rows, k) && Descended(t0, t, at, rows, k)
    ensures Descending(t0, t, at, rows, k + 1) && Descended(t0, t, at, rows, k + 1)
  {
    forall p | p in t0 && !Visited(at, rows, k + 1, p) ensures p in t {
      assert !Visited(at, rows, k, p);
    }
  }

  /** A visited path is below the folder. */
  lemma OutsideUnvisited(t: Tree, at: Path, rows: seq<Row>, k: nat)
    ensures forall p | p in t && !Below(at, p) :: !Visited(at, rows, k, p)
  {
    forall p, i: nat | p in t && i < |rows| && Below(at + [rows[i].name], p) ensures Below(at, p) {
      BelowChild(at, rows[i].name, p);
    }
  }

  /** A path the removal loop may take: below a child that neither stays nor is SourceLens metadata. */
  ghost predicate Removable(at: Path, rows: seq<Row>, marker: bool, p: Path) {
    Below(at, p) && |at| < |p| && !Kept(rows, marker, p[|at|]) && !HasPrefix(p[|at|], METADATA)
  }

  /** Only removable paths are gone. */
  ghost predicate Cleared(t0: Tree, t1: Tree, at: Path, rows: seq<Row>, marker: bool) {
    Within(t1, t0) && forall p | p in t0 && !Removable(at, rows, marker, p) :: p in t1
  }

  lemma ClearedIsSafe(t0: Tree, t1: Tree, at: Path, node: Snapshot, marker: bool)
    requires node.SnapshotDir? && Acceptable(node.rows) && Verified(t0, at, node.rows)
    requires Cleared(t0, t1, at, node.rows, marker)
    ensures forall p | p in t0 && !Below(at, p) :: p in t1
    ensures SafeBelow(t0, t1, at, node, marker)
    ensures Verified(t1, at, node.rows)
  {
    forall p | p in t0 && Below(at, p) && Protected(t0, at, p[|at|..], node, marker)
      ensures !Removable(at, node.rows, marker, p)
    {
    }
    forall i | 0 <= i < |node.rows| ensures !Removable(at, node.rows, marker, at + [node.rows[i].name]) {
    }
  }

  lemma SafeThroughout(t0: Tree, t1: Tree, t2: Tree, at: Path, node: Snapshot, marker: bool)
    requires node.SnapshotDir? && Acceptable(node.rows) && Verified(t0, at, node.rows)
    requires Cleared(t0, t1, at, node.rows, marker) && SafeBelow(t1, t2, at, node, marker)
    ensures SafeBelow(t0, t2, at, node, marker)
  {
    ClearedIsSafe(t0, t1, at, node, marker);
    forall p | p in t0 && Below(at, p) && Protected(t0, at, p[|at|..], node, marker) ensures p in t2 {
      StillProtected(t0, t1, at, p[|at|..], node, marker);
    }
  }

  lemma StillProtected(t0: Tree, t1: Tree, at: Path, q: Path, node: Snapshot, marker: bool)
    requires node.SnapshotDir? && Acceptable(node.rows) && Verified(t0, at, node.rows)
    requires Cleared(t0, t1, at, node.rows, marker) && Protected(t0, at, q, node, marker)
    ensures Protected(t1, at, q, node, marker)
  {
    if q != [] && Kept(node.rows, marker, q[0]) {
      forall p | Below(at + [q[0]], p) ensures !Removable(at, node.rows, marker, p) {
        BelowChild(at, q[0], p);
      }
      forall i | 0 <= i < |node.rows| && node.rows[i].name == q[0] && node.rows[i].node.SnapshotDir? &&
                 Protected(t0, at + [q[0]], q[1..], node.rows[i].node, false)
        ensures Protected(t1, at + [q[0]], q[1..], node.rows[i].node, false)
      {
        ProtectedFrame(t0, t1, at + [q[0]], q[1..], node.rows[i].node, false);
      }
    }
  }

  lemma ExactThroughout(t0: Tree, t1: Tree, t2: Tree, at: Path, node: Snapshot, marker: bool)
    requires node.SnapshotDir? && Cleared(t0, t1, at, node.rows, marker) && Within(t2, t1)
    requires ExactBelow(t1, t2, at, node, marker)
    ensures ExactBelow(t0, t2, at, node, marker)
  {
    forall p | p in t0 && Below(at, p) && p !in t1 ensures !Retained(p[|at|..], node, marker) {
      assert Removable(at, node.rows, marker, p);
      assert p[|at|..][0] == p[|at|];
    }
  }
}
