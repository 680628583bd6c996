/** The reconciliation itself: recursive deletion of what a snapshot does not hold.

    Any operation may fail, and the context may end, at any point. */
module Reconcile {
  import opened ReconcileSpec
  import opened Sets

  class ManagedTree {
    var tree: Tree
    var processed: nat  // entries unlinked so far

    constructor (tree: Tree)
      requires WellFormed(tree)
      ensures this.tree == tree && processed == 0
    {
      this.tree, processed := tree, 0;
    }

    method Fails() returns (failed: bool)
    {
      failed := *;
    }

    /** One unlink of a file, or rmdir of an empty directory. */
    method Unlink(at: Path) returns (ok: bool)
      requires WellFormed(tree) && at in tree && at != []
      requires forall name :: at + [name] !in tree
      modifies this
      ensures WellFormed(tree)
      ensures tree == if ok then old(tree) - {at} else old(tree)
      ensures processed == old(processed) + |old(tree)| - |tree|
      ensures ok ==> Under(tree, at) == {}
    {
      var failed := Fails();
      ok := !failed;
      if ok {
        LeafRemoved(tree, at);
        tree := tree - {at};
        processed := processed + 1;
      }
    }

    /** Something below a path lies under one of its children. */
    static lemma ChildTowards(t: Tree, at: Path, p: Path)
      requires WellFormed(t) && p in t && Below(at, p) && p != at
      ensures at + [p[|at|]] in t
    {
      AncestorPresent(t, p, |at| + 1);
      assert p[..|at| + 1] == at + [p[|at|]];
    }

    /** Taking away a path without children leaves a tree, with nothing below that path. */
    static lemma LeafRemoved(t: Tree, at: Path)
      requires WellFormed(t) && at in t && at != [] && forall name :: at + [name] !in t
      ensures WellFormed(t - {at}) && |t - {at}| == |t| - 1
      ensures forall p | p in t - {at} :: !Below(at, p)
    {
      var rest := t - {at};
      assert rest.Keys == t.Keys - {at};
      forall p | p in rest && p != [] ensures p[..|p| - 1] in rest {
        assert p == p[..|p| - 1] + [p[|p| - 1]];
      }
      forall p | p in rest ensures !Below(at, p) {
        if Below(at, p) { ChildTowards(t, at, p); }
      }
    }

    /** Where the children stay, so does the first name of everything deeper. */
    static lemma KeptBelow(t: Tree, at: Path, rows: seq<Row>, marker: bool)
      requires WellFormed(t) && forall name | at + [name] in t :: Kept(rows, marker, name)
      ensures forall p | p in t && Below(at, p) && |at| < |p| :: Kept(rows, marker, p[|at|])
    {
      forall p | p in t && Below(at, p) && |at| < |p| ensures Kept(rows, marker, p[|at|]) {
        ChildTowards(t, at, p);
      }
    }

    static lemma BelowItself(p: Path)
      ensures Below(p, p)
    {
    }

    static lemma LeafHasNoChildren(t: Tree, at: Path)
      requires WellFormed(t) && at in t && t[at] != Dir
      ensures forall name :: at + [name] !in t
    {
      assert forall name :: (at + [name])[..|at + [name]| - 1] == at;
    }

    /** There is strictly less below a child. */
    static lemma SmallerBelow(before: Tree, now: Tree, at: Path, name: Name)
      requires Within(now, before) && at in before
      ensures Under(now, at + [name]) < Under(before, at)
    {
      forall p | p in Under(now, at + [name]) ensures p in Under(before, at) {
        BelowChild(at, name, p);
      }
      assert at in Under(before, at) && at !in Under(now, at + [name]);
    }

    /** What removing one child leaves alone. */
    static lemma ChildRemoved(before: Tree, after: Tree, at: Path, name: Name)
      requires Within(after, before)
      requires forall p | p in before && !Below(at + [name], p) :: p in after
      ensures forall p | p in before && !Below(at, p) :: p in after
      ensures at in before ==> at in after
      ensures forall other | other != name :: at + [other] in after <==> at + [other] in before
    {
      forall p ensures Below(at + [name], p) <==> Below(at, p) && |at| < |p| && p[|at|] == name {
        BelowChild(at, name, p);
      }
    }

    static lemma {:induction false} AncestorPresent(t: Tree, p: Path, k: nat)
      requires WellFormed(t) && p in t && k <= |p|
      ensures p[..k] in t
      decreases |p|
    {
      if k == |p| {
        assert p[..k] == p;
      } else {
        assert p[..|p| - 1][..k] == p[..k];
        AncestorPresent(t, p[..|p| - 1], k);
      }
    }

    /** The names in a directory, each once, in no particular order. */
    method ReadDirectory(at: Path) returns (names: seq<Name>)
      ensures forall name :: name in names <==> at + [name] in tree
      ensures forall i, j | 0 <= i < j < |names| :: names[i] != names[j]
    {
      names := [];
      var children := set p | p in tree && p != [] && p[..|p| - 1] == at :: p[|p| - 1];
      ChildrenAre(at, children);
      ghost var all := children;
      while children != {}
        invariant forall name :: name in all <==> name in names || name in children
        invariant forall name | name in names :: name !in children
        invariant forall i, j | 0 <= i < j < |names| :: names[i] != names[j]
      {
        var name :| name in children;
        children := children - {name};
        names := names + [name];
      }
    }

    lemma ChildrenAre(at: Path, children: set<Name>)
      requires children == set p | p in tree && p != [] && p[..|p| - 1] == at :: p[|p| - 1]
      ensures forall name :: name in children <==> at + [name] in tree
    {
      forall name ensures name in children <==> at + [name] in tree {
        var p := at + [name];
        assert p[..|p| - 1] == at && p[|p| - 1] == name;
        if name in children {
          var q :| q in tree && q != [] && q[..|q| - 1] == at && q[|q| - 1] == name;
          assert q == p;
        }
      }
    }

    /** `removeWorkspaceEntryAt`: the entry and everything below it, children first.  On failure some of it
        may be gone, and nothing else. */
    method RemoveEntry(at: Path) returns (ok: bool)
      requires WellFormed(tree) && at in tree && at != []
      modifies this
      ensures WellFormed(tree) && Within(tree, old(tree))
      ensures forall p | p in old(tree) && !Below(at, p) :: p in tree
      ensures ok ==> Under(tree, at) == {} && at !in tree
      ensures processed == old(processed) + |old(tree)| - |tree|
      decreases Under(tree, at)
    {
      hide WellFormed, Below;
      BelowItself(at);
      if tree[at] != Dir {
        LeafHasNoChildren(tree, at);
        ok := Unlink(at);
        return;
      }
      var failed := Fails();
      if failed { return false; }
      var names := ReadDirectory(at);
      for k := 0 to |names|
        invariant WellFormed(tree) && Within(tree, old(tree)) && at in tree && tree[at] == Dir
        invariant forall p | p in old(tree) && !Below(at, p) :: p in tree
        invariant forall name :: at + [name] in tree <==> name in names[k..]
        invariant processed == old(processed) + |old(tree)| - |tree|
      {
        var child := at + [names[k]];
        assert names[k..] == [names[k]] + names[k + 1..];
        ghost var before := tree;
        SmallerBelow(old(tree), tree, at, names[k]);
        ok := RemoveEntry(child);
        ChildRemoved(before, tree, at, names[k]);
        if !ok { return; }
      }
      failed := Fails();
      if failed { return false; }
      ok := Unlink(at);
    }

    /** The listing's own checks, collecting the names it expects. */
    method CheckListing(rows: seq<Row>) returns (ok: bool, expected: set<Name>)
      ensures ok <==> Acceptable(rows)
      ensures ok ==> forall name :: name in expected <==> Listed(rows, name)
    {
      expected := {};
      if |rows| > MAX_ENTRIES { return false, expected; }
      for k := 0 to |rows|
        invariant forall i | 0 <= i < k :: SafeName(rows[i].name)
        invariant forall i, j | 0 <= i < j < k :: rows[i].name != rows[j].name
        invariant expected == set i | 0 <= i < k :: rows[i].name
      {
        if !SafeName(rows[k].name) || rows[k].name in expected { return false, expected; }
        expected := expected + {rows[k].name};
      }
      ok := true;
    }

    /** The retained entries, checked before anything is removed from the folder. */
    method CheckEntries(at: Path, rows: seq<Row>) returns (ok: bool)
      ensures ok <==> Verified(tree, at, rows)
    {
      for k := 0 to |rows|
        invariant forall i | 0 <= i < k ::
                    var p := at + [rows[i].name];
                    p in tree && tree[p] == if rows[i].node.SnapshotDir? then Dir else File
      {
        var p := at + [rows[k].name];
        if p !in tree || tree[p] == Link || (tree[p] == Dir) != rows[k].node.SnapshotDir? { return false; }
      }
      ok := true;
    }

    /** Remove one entry of a folder that neither stays nor is SourceLens metadata. */
    method RemoveChild(at: Path, rows: seq<Row>, marker: bool, name: Name) returns (ok: bool)
      requires WellFormed(tree) && at + [name] in tree
      requires !Kept(rows, marker, name) && !HasPrefix(name, METADATA)
      modifies this
      ensures WellFormed(tree) && Within(tree, old(tree)) && |tree| <= |old(tree)|
      ensures forall p | p in old(tree) && !Removable(at, rows, marker, p) :: p in tree
      ensures forall other | other != name :: at + [other] in tree <==> at + [other] in old(tree)
      ensures ok ==> at + [name] !in tree && |tree| < |old(tree)|
      ensures processed == old(processed) + |old(tree)| - |tree|
    {
      hide WellFormed, Below, Removable;
      ok := RemoveEntry(at + [name]);
      ChildRemoved(old(tree), tree, at, name);
      OnlyRemovable(old(tree), tree, at, rows, marker, name);
      SubsetSize(tree.Keys, old(tree).Keys);
      if ok { FewerEntries(old(tree), tree, at + [name]); }
    }

    /** The removal loop of one folder. */
    method RemoveUnlisted(at: Path, rows: seq<Row>, expected: set<Name>, existing: seq<Name>, marker: bool)
      returns (ok: bool, removed: nat)
      requires WellFormed(tree)
      requires forall name :: name in expected <==> Listed(rows, name)
      requires forall name :: name in existing <==> at + [name] in tree
      requires forall i, j | 0 <= i < j < |existing| :: existing[i] != existing[j]
      modifies this
      ensures WellFormed(tree) && Within(tree, old(tree))
      ensures forall p | p in old(tree) && !Removable(at, rows, marker, p) :: p in tree
      ensures ok ==> forall name | at + [name] in tree :: Kept(rows, marker, name)
      ensures removed <= |old(tree)| - |tree| && (ok && removed == 0 ==> tree == old(tree))
      ensures processed == old(processed) + |old(tree)| - |tree|
    {
      hide WellFormed, Below, Removable;
      ok, removed := true, 0;
      for k := 0 to |existing|
        invariant WellFormed(tree) && Within(tree, old(tree)) && ok
        invariant forall p | p in old(tree) && !Removable(at, rows, marker, p) :: p in tree
        invariant forall name | name in existing[k..] :: at + [name] in tree
        invariant forall name | at + [name] in tree && name !in existing[k..] :: Kept(rows, marker, name)
        invariant removed <= |old(tree)| - |tree| && (removed == 0 ==> tree == old(tree))
        invariant processed == old(processed) + |old(tree)| - |tree|
      {
        var failed := Fails();
        if failed { return false, removed; }
        var name := existing[k];
        assert existing[k..] == [name] + existing[k + 1..];
        if name in expected { continue; }
        if marker && name == MARKER { continue; }
        if HasPrefix(name, METADATA) { return false, removed; }
        if HasSuffix(name, METADATA) && TrimSuffix(name, METADATA) in expected { continue; }
        assert !Kept(rows, marker, name);
        var done := RemoveChild(at, rows, marker, name);
        if !done { return false, removed; }
        removed := removed + 1;
      }
    }

    static lemma OnlyRemovable(before: Tree, after: Tree, at: Path, rows: seq<Row>, marker: bool, name: Name)
      requires !Kept(rows, marker, name) && !HasPrefix(name, METADATA)
      requires forall p | p in before && !Below(at + [name], p) :: p in after
      ensures forall p | p in before && !Removable(at, rows, marker, p) :: p in after
    {
      forall p | p in before && !Removable(at, rows, marker, p) ensures p in after {
        BelowChild(at, name, p);
      }
    }

    static lemma FewerEntries(before: Tree, after: Tree, p: Path)
      requires Within(after, before) && p in before && p !in after
      ensures |after| < |before|
    {
      assert after.Keys <= before.Keys - {p};
      SubsetSize(after.Keys, before.Keys - {p});
    }

    /** `reconcileSnapshotDirectory`.  However it ends, nothing outside the folder and nothing protected in it
        is gone.  When it succeeds, the folder is exactly reconciled. */
    method ReconcileDirectory(at: Path, node: Snapshot, preserve: bool) returns (ok: bool, removed: nat)
      requires WellFormed(tree) && node.SnapshotDir?
      modifies this
      ensures WellFormed(tree) && Within(tree, old(tree))
      ensures forall p | p in old(tree) && !Below(at, p) :: p in tree
      ensures SafeBelow(old(tree), tree, at, node, preserve && at == [])
      ensures ok ==> ExactBelow(old(tree), tree, at, node, preserve && at == [])
      ensures removed <= |old(tree)| - |tree| && (ok && removed == 0 ==> tree == old(tree))
      ensures processed == old(processed) + |old(tree)| - |tree|
      decreases node, 2
    {
      hide WellFormed, Below, Protected, Retained, Removable;
      ok, removed := false, 0;
      var failed := Fails();  // the context, or the listing
      if failed { return; }
      var rows, marker := node.rows, preserve && at == [];
      var expected;
      ok, expected := CheckListing(rows);
      if !ok { return; }
      if at !in tree || tree[at] != Dir { return false, 0; }
      failed := Fails();
      if failed { return false, 0; }
      var existing := ReadDirectory(at);
      if |existing| > MAX_ENTRIES { return false, 0; }
      ok := CheckEntries(at, rows);
      if !ok { return; }
      ok, removed := RemoveThenDescend(at, node, preserve, expected, existing);
    }

    /** What follows the checks of a folder: its own removals, then the folders it keeps. */
    method RemoveThenDescend(at: Path, node: Snapshot, preserve: bool, expected: set<Name>, existing: seq<Name>)
      returns (ok: bool, removed: nat)
      requires WellFormed(tree) && node.SnapshotDir? && Acceptable(node.rows) && Verified(tree, at, node.rows)
      requires forall name :: name in expected <==> Listed(node.rows, name)
      requires forall name :: name in existing <==> at + [name] in tree
      requires forall i, j | 0 <= i < j < |existing| :: existing[i] != existing[j]
      modifies this
      ensures WellFormed(tree) && Within(tree, old(tree))
      ensures forall p | p in old(tree) && !Below(at, p) :: p in tree
      ensures SafeBelow(old(tree), tree, at, node, preserve && at == [])
      ensures ok ==> ExactBelow(old(tree), tree, at, node, preserve && at == [])
      ensures removed <= |old(tree)| - |tree| && (ok && removed == 0 ==> tree == old(tree))
      ensures processed == old(processed) + |old(tree)| - |tree|
      decreases node, 1
    {
      hide WellFormed, Below, Protected, Retained, Removable, SafeBelow, ExactBelow;
      var rows, marker := node.rows, preserve && at == [];
      ok, removed := RemoveUnlisted(at, rows, expected, existing, marker);
      ghost var cleared := tree;
      ClearedIsSafe(old(tree), cleared, at, node, marker);
      if !ok { return; }
      KeptBelow(tree, at, rows, marker);
      var more;
      ok, more := Descend(at, node, preserve);
      removed := removed + more;
      SafeThroughout(old(tree), cleared, tree, at, node, marker);
      if ok { ExactThroughout(old(tree), cleared, tree, at, node, marker); }
    }

    /** The recursion over the listed directories. */
    method Descend(at: Path, node: Snapshot, preserve: bool) returns (ok: bool, removed: nat)
      requires WellFormed(tree) && node.SnapshotDir? && Acceptable(node.rows) && Verified(tree, at, node.rows)
      requires forall p | p in tree && Below(at, p) && |at| < |p| :: Kept(node.rows, preserve && at == [], p[|at|])
      modifies this
      ensures WellFormed(tree) && Within(tree, old(tree))
      ensures forall p | p in old(tree) && !Below(at, p) :: p in tree
      ensures SafeBelow(old(tree), tree, at, node, preserve && at == [])
      ensures ok ==> ExactBelow(old(tree), tree, at, node, preserve && at == [])
      ensures removed <= |old(tree)| - |tree| && (ok && removed == 0 ==> tree == old(tree))
      ensures processed == old(processed) + |old(tree)| - |tree|
      decreases node, 0
    {
      hide WellFormed, Below, Protected, Retained, SafeBelow, ExactBelow;
      var rows := node.rows;
      ok, removed := true, 0;
      for k := 0 to |rows|
        invariant ok && WellFormed(tree)
        invariant Descending(old(tree), tree, at, rows, k) && Descended(old(tree), tree, at, rows, k)
        invariant removed <= |old(tree)| - |tree| && (removed == 0 ==> tree == old(tree))
        invariant processed == old(processed) + |old(tree)| - |tree|
      {
        if rows[k].node.SnapshotDir? {
          ghost var before := tree;
          var count;
          ok, count := ReconcileDirectory(at + [rows[k].name], rows[k].node, preserve);
          removed := removed + count;
          DescendStep(old(tree), before, tree, at, rows, k);
          if !ok {
            DescentIsSafe(old(tree), tree, at, node, preserve && at == [], k + 1);
            OutsideUnvisited(old(tree), at, rows, k + 1);
            return;
          }
        } else {
          NothingToVisit(old(tree), tree, at, rows, k);
        }
      }
      OutsideUnvisited(old(tree), at, rows, |rows|);
      DescentIsSafe(old(tree), tree, at, node, preserve && at == [], |rows|);
      DescentIsExact(old(tree), tree, at, node, preserve && at == []);
    }

    /** `reconcileSnapshotWorkspaceWithMarker` after its check of the root. */
    method ReconcileWorkspace(node: Snapshot, preserveRootMarker: bool) returns (ok: bool, removed: nat)
      requires WellFormed(tree) && node.SnapshotDir?
      modifies this
      ensures WellFormed(tree) && Within(tree, old(tree))
      // However the run ends, nothing protected is gone; in particular nothing of the reconciled tree.
      ensures forall p | p in old(tree) && Protected(old(tree), [], p, node, preserveRootMarker) :: p in tree
      ensures forall p | p in old(tree) && Retained(p, node, preserveRootMarker) :: p in tree
      // A successful run leaves the snapshot, complete at every level, and what may stay beside it.
      ensures ok ==> Complete(tree, [], node)
      ensures ok ==> forall p | p in old(tree) :: p in tree <==> Retained(p, node, preserveRootMarker)
      // Over a reconciled tree there is nothing to remove, and nothing is.
      ensures (forall p | p in old(tree) :: Retained(p, node, preserveRootMarker)) ==>
                tree == old(tree) && removed == 0
      ensures ok ==> (removed == 0 <==> tree == old(tree))
      // Progress counts every entry unlinked.
      ensures processed == old(processed) + |old(tree)| - |tree|
    {
      ok, removed := ReconcileDirectory([], node, preserveRootMarker);
      forall p | p in old(tree) ensures Below([], p) && p[0..] == p {
      }
      forall p | p in old(tree) && Retained(p, node, preserveRootMarker) ensures p in tree {
        RetainedIsProtected(old(tree), [], p, node, preserveRootMarker);
      }
    }
  }
}
