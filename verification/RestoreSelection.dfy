/** The minimal restore selection: of all selected paths, those no other selected path covers. */
module RestoreSelection {
  import opened Occurrences

  /** `restorePathCoversSelection`. */
  predicate Covers(ancestor: string, candidate: string) {
    candidate == ancestor || ancestor + "/" <= candidate
  }

  lemma CoversIsAnOrder(a: string, b: string, c: string)
    ensures Covers(a, a)
    ensures Covers(a, b) && Covers(b, c) ==> Covers(a, c)
    ensures Covers(a, b) && Covers(b, a) ==> a == b
  {
    if a + "/" <= b && b + "/" <= c {
      assert c[..|a| + 1] == b[..|a| + 1];
    }
  }

  /** No other selected path covers `x`. */
  predicate Minimal(values: seq<string>, x: string) {
    x in values && forall y | y in values :: Covers(y, x) ==> y == x
  }

  /** `r` is the minimal paths, each once, in the order in which they first appear. */
  ghost predicate Selection(values: seq<string>, r: seq<string>) {
    (forall x :: x in r <==> Minimal(values, x)) && Ordered(values, r)
  }

  /** One selected item after trimming and cleaning; "" is the root. */
  function Cleaned(item: string, trim: string -> string, clean: string -> string): string {
    var value := trim(item);
    if value == "" || value == "." then ""
    else if clean(value) == "." then "" else clean(value)
  }

  function CleanedAll(raw: seq<string>, trim: string -> string, clean: string -> string): (values: seq<string>)
    ensures |values| == |raw| && forall i | 0 <= i < |raw| :: values[i] == Cleaned(raw[i], trim, clean)
  {
    seq(|raw|, i requires 0 <= i < |raw| => Cleaned(raw[i], trim, clean))
  }

  // ---- What a selection is good for ----

  /** Every selected path is covered by a minimal one. */
  lemma {:induction false} CoveredByMinimal(values: seq<string>, x: string) returns (m: string)
    requires x in values
    ensures Minimal(values, m) && Covers(m, x)
    decreases |x|
  {
    if Minimal(values, x) {
      m := x;
    } else {
      var y :| y in values && Covers(y, x) && y != x;
      m := CoveredByMinimal(values, y);
      CoversIsAnOrder(m, y, x);
    }
  }

  /** A set of inputs, none covering another, that together cover every input. */
  ghost predicate LeastCover(values: seq<string>, s: set<string>) {
    && (forall x | x in s :: x in values)
    && (forall x, y | x in s && y in s && Covers(x, y) :: x == y)
    && (forall x | x in values :: exists m | m in s :: Covers(m, x))
  }

  function Elements(r: seq<string>): set<string> {
    set x | x in r
  }

  /** A selection is such a set ... */
  lemma SelectionIsLeastCover(values: seq<string>, r: seq<string>)
    requires Selection(values, r)
    ensures LeastCover(values, Elements(r))
  {
    forall x | x in values ensures exists m | m in Elements(r) :: Covers(m, x) {
      var m := CoveredByMinimal(values, x);
      assert m in Elements(r);
    }
  }

  /** ... and there is only one. */
  lemma LeastCoverIsUnique(values: seq<string>, s: set<string>, x: string)
    requires LeastCover(values, s)
    ensures x in s <==> Minimal(values, x)
  {
    if Minimal(values, x) {
      var m :| m in s && Covers(m, x);
    }
    if x in s {
      forall y | y in values && Covers(y, x) ensures y == x {
        var m :| m in s && Covers(m, y);
        CoversIsAnOrder(m, y, x);
        CoversIsAnOrder(x, y, x);
      }
    }
  }

  /** The order of the inputs does not matter to the set of paths selected. */
  lemma OrderDoesNotMatter(values: seq<string>, other: seq<string>, r: seq<string>, s: seq<string>)
    requires Selection(values, r) && Selection(other, s)
    requires forall x :: x in values <==> x in other
    ensures forall x :: x in r <==> x in s
  {
    forall x ensures x in r <==> x in s {
      assert Minimal(values, x) <==> Minimal(other, x);
    }
  }

  // ---- One more input ----

  /** A covered input changes nothing. */
  lemma CoveredInput(values: seq<string>, v: string, r: seq<string>, e: string)
    requires Selection(values, r) && e in r && Covers(e, v)
    ensures Selection(values + [v], r)
  {
    OrderedExtends(values, v, r);
    forall x ensures Minimal(values + [v], x) <==> Minimal(values, x) {
      CoversIsAnOrder(e, v, x);
      CoversIsAnOrder(e, e, x);
      CoversIsAnOrder(v, e, v);
    }
  }

  /** What `value` does not cover, in order. */
  ghost function Uncovered(r: seq<string>, value: string): (kept: seq<string>)
    ensures |kept| <= |r|
    ensures forall x :: x in kept <==> x in r && !Covers(value, x)
  {
    if r == [] then []
    else
      var kept, last := Uncovered(r[..|r| - 1], value), r[|r| - 1];
      assert r == r[..|r| - 1] + [last];
      if Covers(value, last) then kept else kept + [last]
  }

  lemma {:induction false} UncoveredOrdered(values: seq<string>, r: seq<string>, value: string)
    requires Ordered(values, r)
    ensures Ordered(values, Uncovered(r, value))
  {
    if r != [] {
      var before, last := r[..|r| - 1], r[|r| - 1];
      UncoveredOrdered(values, before, value);
      forall x | x in Uncovered(before, value) ensures First(values, x) < First(values, last) {
        var i :| 0 <= i < |before| && before[i] == x;
        assert r[i] == x;
      }
    }
  }

  /** An input that nothing covers replaces what it covers. */
  lemma UncoveredInput(values: seq<string>, v: string, r: seq<string>)
    requires Selection(values, r) && forall e | e in r :: !Covers(e, v)
    ensures Selection(values + [v], Uncovered(r, v) + [v])
  {
    forall y | y in values ensures !Covers(y, v) {
      var m := CoveredByMinimal(values, y);
      CoversIsAnOrder(m, y, v);
    }
    CoversIsAnOrder(v, v, v);
    assert v !in values;
    UncoveredOrdered(values, r, v);
    OrderedExtends(values, v, Uncovered(r, v));
  }

  /** The selection after one more input. */
  ghost function Added(r: seq<string>, v: string): seq<string> {
    if exists e | e in r :: Covers(e, v) then r else Uncovered(r, v) + [v]
  }

  lemma OneMoreInput(values: seq<string>, v: string, r: seq<string>)
    requires Selection(values, r)
    ensures Selection(values + [v], Added(r, v))
  {
    if e :| e in r && Covers(e, v) {
      CoveredInput(values, v, r, e);
    } else {
      UncoveredInput(values, v, r);
    }
  }

  lemma SelectionOfNothing()
    ensures Selection([], [])
  {
  }

  lemma SelectionNotEmpty(values: seq<string>, r: seq<string>)
    requires Selection(values, r) && values != []
    ensures r != []
  {
    var m := CoveredByMinimal(values, values[0]);
  }

  lemma UncoveredAppend(r: seq<string>, value: string, last: string)
    ensures Uncovered(r + [last], value) ==
              if Covers(value, last) then Uncovered(r, value) else Uncovered(r, value) + [last]
  {
    assert (r + [last])[..|r|] == r;
  }

  /** `restoreSelectedPaths`: the slice is compacted in place before each append. */
  method RestoreSelectedPaths(raw: seq<string>, trim: string -> string, clean: string -> string)
    returns (paths: seq<string>)
    ensures var values := CleanedAll(raw, trim, clean);
            if raw == [] || "" in values then paths == [""] else Selection(values, paths)
  {
    hide Selection, Added, Cleaned;
    ghost var values := CleanedAll(raw, trim, clean);
    if |raw| == 0 { return [""]; }
    SelectionOfNothing();
    var buffer := new string[|raw|];
    var n := 0;
    assert buffer[..0] == [] && values[..0] == [];
    for k := 0 to |raw|
      invariant 0 <= n <= k <= buffer.Length && "" !in values[..k]
      invariant Selection(values[..k], buffer[..n])
    {
      var value := Cleaned(raw[k], trim, clean);
      assert values[k] == value && values[..k + 1] == values[..k] + [value];
      if value == "" { return [""]; }
      OneMoreInput(values[..k], value, buffer[..n]);
      n := AddPath(buffer, n, value);
    }
    assert values[..|raw|] == values;
    SelectionNotEmpty(values, buffer[..n]);
    paths := if n == 0 then [""] else buffer[..n];
  }

  /** One turn of the loop. */
  method AddPath(buffer: array<string>, n: nat, value: string) returns (m: nat)
    requires n < buffer.Length
    modifies buffer
    ensures m <= n + 1 && buffer[..m] == Added(old(buffer[..n]), value)
  {
    hide Covers, Uncovered;
    var covered := AnyCovers(buffer, n, value);
    if covered { return n; }
    m := Compact(buffer, n, value);
    ghost var kept := buffer[..m];
    buffer[m] := value;
    m := m + 1;
    assert buffer[..m] == kept + [value];
  }

  method AnyCovers(buffer: array<string>, n: nat, value: string) returns (covered: bool)
    requires n <= buffer.Length
    ensures covered <==> exists e | e in buffer[..n] :: Covers(e, value)
  {
    hide Covers;
    for j := 0 to n
      invariant forall e | e in buffer[..j] :: !Covers(e, value)
    {
      if Covers(buffer[j], value) {
        assert buffer[j] in buffer[..n];
        return true;
      }
      assert buffer[..j + 1] == buffer[..j] + [buffer[j]];
    }
    covered := false;
  }

  /** Keep, in place and in order, what `value` does not cover. */
  method Compact(buffer: array<string>, n: nat, value: string) returns (m: nat)
    requires n <= buffer.Length
    modifies buffer
    ensures m <= n && buffer[..m] == Uncovered(old(buffer[..n]), value)
  {
    hide Covers, Uncovered;
    m := 0;
    ghost var was := buffer[..n];
    NothingUncovered(value);
    assert buffer[..0] == [] && was[..0] == [];
    for j := 0 to n
      invariant m <= j
      invariant forall i | j <= i < n :: buffer[i] == was[i]
      invariant buffer[..m] == Uncovered(was[..j], value)
    {
      var existing := buffer[j];
      assert was[..j + 1] == was[..j] + [existing];
      UncoveredAppend(was[..j], value, existing);
      if !Covers(value, existing) {
        ghost var kept := buffer[..m];
        buffer[m] := existing;
        m := m + 1;
        assert buffer[..m] == kept + [existing];
      }
    }
    assert was[..n] == was;
  }

  lemma NothingUncovered(value: string)
    ensures Uncovered([], value) == []
  {
  }
}
