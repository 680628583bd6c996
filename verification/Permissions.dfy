/** Normalizing platform permissions: legacy keys expanded, then everything they depend on. */
module Permissions {

  /** The values of a stored role: anything, of which only text is looked at. */
  datatype Stored = Text(key: string) | Other

  datatype Catalog = Catalog(
    actions: set<string>, legacy: map<string, seq<string>>, dependencies: map<string, seq<string>>)

  function Dependencies(cat: Catalog, action: string): seq<string> {
    if action in cat.dependencies then cat.dependencies[action] else []
  }

  function Elements(s: seq<string>): set<string> {
    set x | x in s
  }

  /** What one stored value stands for. */
  function Expansion(cat: Catalog, value: Stored): set<string> {
    if value.Other? then {}
    else if value.key in cat.actions then {value.key}
    else if value.key in cat.legacy then Elements(cat.legacy[value.key])
    else {}
  }

  /** The known actions among the expanded values. */
  function Seed(cat: Catalog, values: seq<Stored>): set<string> {
    if values == [] then {}
    else Seed(cat, values[..|values| - 1]) + (Expansion(cat, values[|values| - 1]) * cat.actions)
  }

  ghost predicate Closed(cat: Catalog, s: set<string>) {
    forall x, d | x in s && d in Dependencies(cat, x) :: d in s
  }

  /** `r` is the least dependency-closed superset of `seed`. */
  ghost predicate LeastClosed(cat: Catalog, seed: set<string>, r: set<string>) {
    seed <= r && Closed(cat, r) && forall s: set<string> | seed <= s && Closed(cat, s) :: r <= s
  }

  // ---- The worklist ----

  method ExpandRaw(cat: Catalog, values: seq<Stored>) returns (permissions: set<string>)
    ensures permissions * cat.actions == Seed(cat, values)
  {
    permissions := {};
    for k := 0 to |values|
      invariant permissions * cat.actions == Seed(cat, values[..k])
    {
      var value := values[k];
      assert values[..k + 1][..k] == values[..k];
      if value.Other? { continue; }
      if value.key in cat.actions {
        permissions := permissions + {value.key};
        continue;
      }
      if value.key in cat.legacy {
        permissions := permissions + Elements(cat.legacy[value.key]);
      }
    }
    assert values[..|values|] == values;
  }

  /** The elements of a set in some order. */
  method Listed(s: set<string>) returns (list: seq<string>)
    ensures forall x :: x in list <==> x in s
  {
    list := [];
    var rest := s;
    while rest != {}
      invariant rest <= s && forall x :: x in list <==> x in s - rest
    {
      var x :| x in rest;
      rest := rest - {x};
      list := list + [x];
    }
  }

  /** Every action that can ever be added. */
  function Reachable(cat: Catalog, seed: set<string>): set<string> {
    seed + set x, d | x in cat.dependencies && d in cat.dependencies[x] :: d
  }

  /** Every permission has its dependencies, or is still pending. */
  ghost predicate Worked(cat: Catalog, permissions: set<string>, pending: seq<string>) {
    && (forall x | x in pending :: x in permissions)
    && (forall x, d | x in permissions && d in Dependencies(cat, x) :: x in pending || d in permissions)
  }

  /** `normalize_platform_permissions`: it ends for every dependency map, cyclic or not. */
  method Normalize(cat: Catalog, values: seq<Stored>) returns (permissions: set<string>)
    ensures LeastClosed(cat, Seed(cat, values), permissions)
  {
    var raw := ExpandRaw(cat, values);
    permissions := raw * cat.actions;
    ghost var seed := permissions;
    var pending := Listed(permissions);
    while pending != []
      invariant seed <= permissions <= Reachable(cat, seed)
      invariant Worked(cat, permissions, pending)
      invariant forall s: set<string> | seed <= s && Closed(cat, s) :: permissions <= s
      decreases Reachable(cat, seed) - permissions, |pending|
    {
      var action := pending[|pending| - 1];
      permissions, pending := AddDependencies(cat, seed, action, permissions, pending[..|pending| - 1]);
    }
  }

  /** The inner loop, for one action taken off the worklist. */
  method AddDependencies(
    cat: Catalog, ghost seed: set<string>, action: string, permissions: set<string>, pending: seq<string>)
    returns (grown: set<string>, more: seq<string>)
    requires seed <= permissions <= Reachable(cat, seed) && action in permissions
    requires Worked(cat, permissions, pending + [action])
    requires forall s: set<string> | seed <= s && Closed(cat, s) :: permissions <= s
    ensures permissions <= grown <= Reachable(cat, seed) && Worked(cat, grown, more)
    ensures forall s: set<string> | seed <= s && Closed(cat, s) :: grown <= s
    ensures permissions < grown || (grown == permissions && more == pending)
  {
    grown, more := permissions, pending;
    var targets := Dependencies(cat, action);
    for k := 0 to |targets|
      invariant permissions <= grown <= Reachable(cat, seed)
      invariant forall x | x in more :: x in grown
      invariant forall x, d | x in grown && x != action && d in Dependencies(cat, x) :: x in more || d in grown
      invariant forall i | 0 <= i < k :: targets[i] in grown
      invariant forall s: set<string> | seed <= s && Closed(cat, s) :: grown <= s
      invariant permissions < grown || (grown == permissions && more == pending)
    {
      if targets[k] !in grown {
        forall s: set<string> | seed <= s && Closed(cat, s) ensures targets[k] in s {
          assert action in s;
        }
        grown := grown + {targets[k]};
        more := more + [targets[k]];
      }
    }
  }

  // ---- What normalizing is ----

  lemma Unique(cat: Catalog, seed: set<string>, r: set<string>, s: set<string>)
    requires LeastClosed(cat, seed, r) && LeastClosed(cat, seed, s)
    ensures r == s
  {
  }

  lemma Monotone(cat: Catalog, a: set<string>, b: set<string>, r: set<string>, s: set<string>)
    requires a <= b && LeastClosed(cat, a, r) && LeastClosed(cat, b, s)
    ensures r <= s
  {
  }

  lemma {:induction false} SeedOfConcat(cat: Catalog, v: seq<Stored>, w: seq<Stored>)
    ensures Seed(cat, v + w) == Seed(cat, v) + Seed(cat, w)
    decreases |w|
  {
    if w == [] {
      assert v + w == v;
    } else {
      assert (v + w)[..|v + w| - 1] == v + w[..|w| - 1];
      SeedOfConcat(cat, v, w[..|w| - 1]);
    }
  }

  /** Normalizing distributes over union: two lists together give what they give apart. */
  lemma DistributesOverUnion(
    cat: Catalog, v: seq<Stored>, w: seq<Stored>, r: set<string>, s: set<string>, both: set<string>)
    requires LeastClosed(cat, Seed(cat, v), r) && LeastClosed(cat, Seed(cat, w), s)
    requires LeastClosed(cat, Seed(cat, v + w), both)
    ensures both == r + s
  {
    SeedOfConcat(cat, v, w);
    assert Closed(cat, r + s);
    assert r <= both && s <= both;
  }

  /** A set of actions stored again as text. */
  predicate Stores(values: seq<Stored>, s: set<string>) {
    (forall v | v in values :: v.Text? && v.key in s) && (forall x | x in s :: Text(x) in values)
  }

  lemma {:induction false} SeedMembers(cat: Catalog, values: seq<Stored>, x: string)
    ensures x in Seed(cat, values) <==> x in cat.actions && exists v | v in values :: x in Expansion(cat, v)
  {
    if values != [] {
      var before, last := values[..|values| - 1], values[|values| - 1];
      SeedMembers(cat, before, x);
      assert forall v :: v in values <==> v in before || v == last;
    }
  }

  /** When a normalized set can be normalized again without change: every known action its members expand to,
      as legacy keys, is already in it. */
  ghost predicate SelfContained(cat: Catalog, r: set<string>) {
    forall x, y | x in r && x !in cat.actions && x in cat.legacy && y in cat.legacy[x] && y in cat.actions :: y in r
  }

  /** Normalizing twice is normalizing once exactly for self-contained results. */
  lemma IdempotentIff(
    cat: Catalog, values: seq<Stored>, r: set<string>, again: seq<Stored>, s: set<string>)
    requires LeastClosed(cat, Seed(cat, values), r) && Stores(again, r)
    requires LeastClosed(cat, Seed(cat, again), s)
    ensures s == r <==> SelfContained(cat, r)
  {
    forall x | x in Seed(cat, values) ensures x in Seed(cat, again) {
      SeedMembers(cat, values, x);
      SeedMembers(cat, again, x);
      assert Text(x) in again;
    }
    Monotone(cat, Seed(cat, values), Seed(cat, again), r, s);
    if SelfContained(cat, r) {
      forall x | x in Seed(cat, again) ensures x in r {
        SeedMembers(cat, again, x);
        var v :| v in again && x in Expansion(cat, v);
      }
    }
    if s == r {
      forall x, y | x in r && x !in cat.actions && x in cat.legacy && y in cat.legacy[x] && y in cat.actions
        ensures y in r
      {
        assert Text(x) in again && y in Expansion(cat, Text(x));
        SeedMembers(cat, again, y);
      }
    }
  }

  /** With known dependency targets nothing unknown is ever granted, and normalizing twice is normalizing
      once. */
  lemma StaysKnown(cat: Catalog, values: seq<Stored>, r: set<string>)
    requires LeastClosed(cat, Seed(cat, values), r)
    requires forall x, d | x in cat.actions && d in Dependencies(cat, x) :: d in cat.actions
    ensures r <= cat.actions && SelfContained(cat, r)
  {
    forall x | x in Seed(cat, values) ensures x in cat.actions {
      SeedMembers(cat, values, x);
    }
    assert Closed(cat, cat.actions);
  }

  /** Otherwise normalizing twice can grant more: an action may depend on a legacy key. */
  lemma SecondTimeCanGrow()
    returns (cat: Catalog, values: seq<Stored>, r: set<string>, again: seq<Stored>, s: set<string>)
    ensures LeastClosed(cat, Seed(cat, values), r) && Stores(again, r)
    ensures LeastClosed(cat, Seed(cat, again), s) && r < s
  {
    cat := Catalog({"view", "edit"}, map["legacy" := ["edit"]], map["view" := ["legacy"]]);
    values, again := [Text("view")], [Text("view"), Text("legacy")];
    r, s := {"view", "legacy"}, {"view", "legacy", "edit"};
    assert values[..0] == [] && again[..1] == values;
    assert Seed(cat, values) == {"view"};
    assert Elements(["edit"]) == {"edit"};
    assert Seed(cat, again) == {"view", "edit"};
    assert "legacy" in Dependencies(cat, "view");
    assert "edit" in s && "edit" !in r;
  }
}
