/** Patching the address of the managed AI engine into its Compose file, line by line. */
module ComposePatch {
  import opened ComposeLines
  import opened TextLines
  import opened Wrappers

  /** The lensnode service is lines `s` to `e`, and there is no second one. */
  ghost predicate IsService(lines: seq<string>, s: int, e: int) {
    && 0 <= s < e <= |lines| && IsHeader(lines[s])
    && (forall i | 0 <= i < |lines| && i != s :: !IsHeader(lines[i]))
    && (forall i | s < i < e :: !IsServiceKey(lines[i])) && (e < |lines| ==> IsServiceKey(lines[e]))
  }

  /** Between `s` and `e` the one address line is `a`, and the one hosts block starts at `h`, or there is none and
      `h` is -1. */
  ghost predicate Lined(lines: seq<string>, s: int, e: int, a: int, h: int)
    requires 0 <= s < e <= |lines|
  {
    && s < a < e && IsAddress(lines[a])
    && (forall i | s < i < e && i != a :: !IsAddress(lines[i]))
    && (h == -1 || (s < h < e && IsBlockHosts(lines[h])))
    && (forall i | s < i < e && i != h :: !IsHosts(lines[i]))
  }

  ghost predicate Located(lines: seq<string>, s: int, e: int, a: int, h: int) {
    IsService(lines, s, e) && Lined(lines, s, e, a, h)
  }

  lemma ServiceOnce(lines: seq<string>, s: int, e: int, s': int, e': int)
    requires IsService(lines, s, e) && IsService(lines, s', e')
    ensures s == s' && e == e'
  {
    hide IsHeader, IsServiceKey;
  }

  lemma LocatedOnce(lines: seq<string>, s: int, e: int, a: int, h: int, s': int, e': int, a': int, h': int)
    requires Located(lines, s, e, a, h) && Located(lines, s', e', a', h')
    ensures s == s' && e == e' && a == a' && h == h'
  {
    hide IsHeader, IsServiceKey, IsAddress, IsHosts;
    ServiceOnce(lines, s, e, s', e');
  }

  /** The lines with the new address. */
  function Addressed(lines: seq<string>, a: int, quoted: string): (r: seq<string>)
    requires 0 <= a < |lines|
    ensures |r| == |lines|
  {
    lines[a := AddressLine(quoted)]
  }

  /** The patched lines, or none for a hosts block that is refused. */
  function Edit(lines: seq<string>, s: int, e: int, a: int, h: int, quoted: string, docker: bool): Option<seq<string>>
    requires 0 <= s < e <= |lines| && s < a < e && (h == -1 || s < h < e)
  {
    var edited := Addressed(lines, a, quoted);
    var mapped := if docker && h >= 0 then Scan(edited, h + 1, e) else Some(false);
    if !docker then Some(edited)
    else if mapped.None? then None
    else if mapped.value then Some(edited)
    else if h >= 0 then Some(edited[..h + 1] + [ENTRY] + edited[h + 1..])
    else Some(edited[..s + 1] + [HOSTS, ENTRY] + edited[s + 1..])
  }

  /** What `patchLensCompose` answers. */
  ghost predicate Patched(lines: seq<string>, quoted: string, docker: bool, r: Option<seq<string>>) {
    && (forall s, e, a, h | Located(lines, s, e, a, h) :: r == Edit(lines, s, e, a, h, quoted, docker))
    && (r.Some? ==> exists s, e, a, h :: Located(lines, s, e, a, h))
  }

  method FindService(lines: seq<string>) returns (s: int, e: int)
    ensures if s == -1 then forall s', e' :: !IsService(lines, s', e') else IsService(lines, s, e)
    ensures s != -1 ==> 0 <= s < e <= |lines|
  {
    hide IsHeader, IsServiceKey;
    s, e := -1, |lines|;
    for i := 0 to |lines|
      invariant -1 <= s < i && s < e <= |lines| && (s >= 0 ==> IsHeader(lines[s]))
      invariant forall j | 0 <= j < i && j != s :: !IsHeader(lines[j])
      invariant e == |lines| || (s >= 0 && e < i && IsServiceKey(lines[e]))
      invariant s >= 0 ==> forall j | s < j < i && j < e :: !IsServiceKey(lines[j])
    {
      if IsHeader(lines[i]) {
        if s >= 0 {
          TwoHeaders(lines, s, i);
          return -1, e;
        }
        s := i;
      } else if s >= 0 && e == |lines| && IsServiceKey(lines[i]) {
        e := i;
      }
    }
  }

  lemma TwoHeaders(lines: seq<string>, i: nat, j: nat)
    requires i < j < |lines| && IsHeader(lines[i]) && IsHeader(lines[j])
    ensures forall s, e :: !IsService(lines, s, e)
  {
    hide IsHeader, IsServiceKey;
  }

  method FindLines(lines: seq<string>, s: int, e: int) returns (ok: bool, a: int, h: int)
    requires 0 <= s < e <= |lines|
    ensures if ok then Lined(lines, s, e, a, h) else forall a', h' :: !Lined(lines, s, e, a', h')
    ensures ok ==> s < a < e && (h == -1 || s < h < e)
  {
    hide IsAddress, IsHosts, IsBlockHosts, Lined;
    ok, a, h := true, -1, -1;
    for i := s + 1 to e
      invariant ok && (a == -1 || (s < a < i && IsAddress(lines[a])))
      invariant forall j | s < j < i && j != a :: !IsAddress(lines[j])
      invariant h == -1 || (s < h < i && IsBlockHosts(lines[h]) && IsHosts(lines[h]))
      invariant forall j | s < j < i && j != h :: !IsHosts(lines[j])
    {
      if IsAddress(lines[i]) {
        if a >= 0 {
          TwoAddresses(lines, s, e, a, i);
          return false, a, h;
        }
        a := i;
      }
      if IsHosts(lines[i]) {
        if h >= 0 || !IsBlockHosts(lines[i]) {
          if h >= 0 { TwoHosts(lines, s, e, h, i); } else { OneLineHosts(lines, s, e, i); }
          return false, a, h;
        }
        h := i;
      }
    }
    ok := a >= 0;
    Lines(lines, s, e, a, h);
  }

  lemma TwoAddresses(lines: seq<string>, s: int, e: int, i: int, j: int)
    requires 0 <= s < i < j < e <= |lines| && IsAddress(lines[i]) && IsAddress(lines[j])
    ensures forall a, h :: !Lined(lines, s, e, a, h)
  {
    hide IsAddress, IsHosts, IsBlockHosts;
  }

  lemma TwoHosts(lines: seq<string>, s: int, e: int, i: int, j: int)
    requires 0 <= s < i < j < e <= |lines| && IsHosts(lines[i]) && IsHosts(lines[j])
    ensures forall a, h :: !Lined(lines, s, e, a, h)
  {
    hide IsAddress, IsHosts, IsBlockHosts;
  }

  lemma OneLineHosts(lines: seq<string>, s: int, e: int, i: int)
    requires 0 <= s < i < e <= |lines| && IsHosts(lines[i]) && !IsBlockHosts(lines[i])
    ensures forall a, h :: !Lined(lines, s, e, a, h)
  {
    hide IsAddress, IsHosts, IsBlockHosts;
  }

  lemma Lines(lines: seq<string>, s: int, e: int, a: int, h: int)
    requires 0 <= s < e <= |lines| && (a == -1 || (s < a < e && IsAddress(lines[a])))
    requires forall j | s < j < e && j != a :: !IsAddress(lines[j])
    requires h == -1 || (s < h < e && IsBlockHosts(lines[h]))
    requires forall j | s < j < e && j != h :: !IsHosts(lines[j])
    ensures if a >= 0 then Lined(lines, s, e, a, h) else forall a', h' :: !Lined(lines, s, e, a', h')
  {
    hide IsAddress, IsHosts, IsBlockHosts;
  }

  method FindMapping(lines: seq<string>, h: nat, e: nat) returns (mapped: Option<bool>)
    requires h < e <= |lines|
    ensures mapped == Scan(lines, h + 1, e)
  {
    hide IsHeader, IsServiceKey, IsAddress, IsHosts, IsBlockHosts, ItemOf;
    mapped := Some(false);
    for i := h + 1 to e
      invariant mapped.Some?
      invariant Scan(lines, h + 1, e) ==
                  if mapped.value && Scan(lines, i, e).Some? then Some(true) else Scan(lines, i, e)
    {
      match ItemOf(lines[i])
      case BlockEnd => return;
      case Unsupported => return None;
      case Conflict => return None;
      case Mapping => mapped := Some(true);
      case _ =>
    }
  }

  /** `patchLensCompose`, between splitting the text into lines and joining them.  `docker` says that the
      address is the Docker host; `quoted` is the quoted address. */
  method PatchLensCompose(lines: seq<string>, quoted: string, docker: bool) returns (r: Option<seq<string>>)
    ensures Patched(lines, quoted, docker, r)
  {
    hide IsHeader, IsServiceKey, IsAddress, IsHosts, IsBlockHosts, ItemOf, IsService, Lined;
    var s, e := FindService(lines);
    if s < 0 { return None; }
    forall s', e' | IsService(lines, s', e') ensures s' == s && e' == e {
      ServiceOnce(lines, s, e, s', e');
    }
    var ok, a, h := FindLines(lines, s, e);
    if !ok { return None; }
    assert Located(lines, s, e, a, h);
    forall s', e', a', h' | Located(lines, s', e', a', h') ensures s' == s && e' == e && a' == a && h' == h {
      LocatedOnce(lines, s, e, a, h, s', e', a', h');
    }
    var patched := lines[a := AddressLine(quoted)];
    if !docker { return Some(patched); }
    var mapped := Some(false);
    if h >= 0 { mapped := FindMapping(patched, h, e); }
    if mapped.None? { return None; }
    if !mapped.value {
      var index, addition := s + 1, [HOSTS, ENTRY];
      if h >= 0 { index, addition := h + 1, addition[1..]; }
      patched := patched[..index] + addition + patched[index..];
    }
    r := Some(patched);
  }

  // ---- What the patch keeps and achieves ----

  /** On success every line but the address line is kept in order, and at most the host mapping is inserted;
      for an address that is not the Docker host, nothing is. */
  lemma OtherLinesKept(lines: seq<string>, quoted: string, docker: bool, r: Option<seq<string>>)
    returns (a: int, at: int, inserted: seq<string>)
    requires Patched(lines, quoted, docker, r) && r.Some?
    ensures 0 <= a < |lines| && IsAddress(lines[a]) && 0 <= at <= |lines|
    ensures r.value == Addressed(lines, a, quoted)[..at] + inserted + Addressed(lines, a, quoted)[at..]
    ensures inserted == [] || (docker && (inserted == [ENTRY] || inserted == [HOSTS, ENTRY]))
  {
    hide IsHeader, IsServiceKey, IsAddress, IsHosts, IsBlockHosts, Edit;
    var s, e, a', h :| Located(lines, s, e, a', h);
    a := a';
    at, inserted := EditInserts(lines, s, e, a, h, quoted, docker, r.value);
  }

  lemma EditInserts(
    lines: seq<string>, s: int, e: int, a: int, h: int, quoted: string, docker: bool, r: seq<string>)
    returns (at: int, inserted: seq<string>)
    requires 0 <= s < a < e <= |lines| && (h == -1 || s < h < e)
    requires Edit(lines, s, e, a, h, quoted, docker) == Some(r)
    ensures 0 <= at <= |lines|
    ensures r == Addressed(lines, a, quoted)[..at] + inserted + Addressed(lines, a, quoted)[at..]
    ensures inserted == [] || (docker && (inserted == [ENTRY] || inserted == [HOSTS, ENTRY]))
  {
    hide AddressLine, Scan, Addressed;
    var edited := Addressed(lines, a, quoted);
    if r == edited {
      at, inserted := 0, [];
      assert edited == edited[..0] + [] + edited[0..];
    } else {
      at := if h >= 0 then h + 1 else s + 1;
      inserted := if h >= 0 then [ENTRY] else [HOSTS, ENTRY];
    }
  }

  /** Lines after an insertion are scanned as before. */
  lemma {:induction false} ScanShifted(lines: seq<string>, at: nat, inserted: seq<string>, i: nat, end: nat)
    requires at <= i <= end <= |lines|
    ensures var r := lines[..at] + inserted + lines[at..];
            Scan(r, i + |inserted|, end + |inserted|) == Scan(lines, i, end)
    decreases end - i
  {
    hide IsHeader, IsServiceKey, IsAddress, IsHosts, IsBlockHosts, ItemOf;
    if i < end {
      ScanShifted(lines, at, inserted, i + 1, end);
    }
  }

  lemma AddressedLocated(lines: seq<string>, s: int, e: int, a: int, h: int, quoted: string)
    requires Located(lines, s, e, a, h)
    ensures Located(Addressed(lines, a, quoted), s, e, a, h)
  {
    hide IsHeader, IsServiceKey, IsAddress, IsHosts, IsBlockHosts, AddressLine;
    AddressLineIs(quoted);
    AddressIsNoHosts(lines[a]);
  }

  /** Insert lines that are neither a service key nor an address right below line `at` of the service. */
  lemma InsertedLocated(
    lines: seq<string>, s: int, e: int, a: int, h: int, at: int, inserted: seq<string>, h': int)
    requires Located(lines, s, e, a, h) && s <= at < e
    requires forall x | x in inserted :: !IsHeader(x) && !IsServiceKey(x) && !IsAddress(x)
    requires if h >= 0 then h' == h <= at && forall x | x in inserted :: !IsHosts(x)
             else h' == at + 1 && inserted != [] && IsBlockHosts(inserted[0]) &&
                  forall i | 1 <= i < |inserted| :: !IsHosts(inserted[i])
    ensures Located(lines[..at + 1] + inserted + lines[at + 1..], s, e + |inserted|,
                    if a <= at then a else a + |inserted|, h')
  {
    hide IsHeader, IsServiceKey, IsAddress, IsHosts, IsBlockHosts;
    InsertedService(lines, s, e, at, inserted);
    StaysOut(lines, at, inserted, IsAddress, s + 1, e, a, -1);
    StaysOut(lines, at, inserted, IsHosts, s + 1, e, h, if h >= 0 then -1 else at + 1);
    Shifted(lines, at, inserted, a);
    if h >= 0 { Shifted(lines, at, inserted, h); }
  }

  lemma InsertedService(lines: seq<string>, s: int, e: int, at: int, inserted: seq<string>)
    requires IsService(lines, s, e) && s <= at < e
    requires forall x | x in inserted :: !IsHeader(x) && !IsServiceKey(x)
    ensures IsService(lines[..at + 1] + inserted + lines[at + 1..], s, e + |inserted|)
  {
    hide IsHeader, IsServiceKey;
    StaysOut(lines, at, inserted, IsHeader, 0, |lines|, s, -1);
    StaysOut(lines, at, inserted, IsServiceKey, s + 1, e, -1, -1);
    Shifted(lines, at, inserted, s);
    if e < |lines| { Shifted(lines, at, inserted, e); }
  }

  /** Where an old line is after an insertion below line `at`. */
  function Moved(at: int, n: nat, i: int): int {
    if i <= at then i else i + n
  }

  lemma Shifted(lines: seq<string>, at: int, inserted: seq<string>, i: int)
    requires 0 <= at < |lines| && 0 <= i < |lines|
    ensures (lines[..at + 1] + inserted + lines[at + 1..])[Moved(at, |inserted|, i)] == lines[i]
    ensures inserted != [] ==> (lines[..at + 1] + inserted + lines[at + 1..])[at + 1] == inserted[0]
  {
  }

  /** A property no line of a range has, but perhaps the one at `skip`, still no line has after an insertion,
      but perhaps that one and the new one at `extra`. */
  lemma StaysOut(
    lines: seq<string>, at: int, inserted: seq<string>, p: string -> bool, lo: int, hi: int, skip: int, extra: int)
    requires 0 <= lo <= at + 1 <= hi <= |lines| && at >= 0
    requires forall i | lo <= i < hi && i != skip :: !p(lines[i])
    requires forall i | 0 <= i < |inserted| && at + 1 + i != extra :: !p(inserted[i])
    ensures var r := lines[..at + 1] + inserted + lines[at + 1..];
            forall i | lo <= i < hi + |inserted| && i != Moved(at, |inserted|, skip) && i != extra :: !p(r[i])
  {
    var r := lines[..at + 1] + inserted + lines[at + 1..];
    forall i | lo <= i < hi + |inserted| && i != Moved(at, |inserted|, skip) && i != extra ensures !p(r[i]) {
      FromWhere(lines, at, inserted, i);
    }
  }

  lemma FromWhere(lines: seq<string>, at: int, inserted: seq<string>, i: int)
    requires 0 <= at < |lines| && 0 <= i < |lines| + |inserted|
    ensures var r, n := lines[..at + 1] + inserted + lines[at + 1..], |inserted|;
            r[i] == if i <= at then lines[i] else if i <= at + n then inserted[i - at - 1] else lines[i - n]
  {
  }

  /** Whether a block inserted right below the service's key would end before anything it cannot hold. */
  ghost predicate RoomForBlock(lines: seq<string>, quoted: string) {
    forall s, e, a, h | Located(lines, s, e, a, h) && h == -1 ::
      Scan(Addressed(lines, a, quoted), s + 1, e).Some?
  }

  /** Applying the patch again to its own result, with the same address, changes nothing when no block had
      to be inserted or there was room for it, and is refused otherwise. */
  lemma IdempotentIff(
    lines: seq<string>, quoted: string, docker: bool, once: seq<string>, again: Option<seq<string>>)
    requires Patched(lines, quoted, docker, Some(once)) && Patched(once, quoted, docker, again)
    ensures again == if !docker || RoomForBlock(lines, quoted) then Some(once) else None
  {
    hide IsHeader, IsServiceKey, IsAddress, IsHosts, IsBlockHosts, Scan, AddressLine, Edit;
    var s, e, a, h :| Located(lines, s, e, a, h);
    forall s', e', a', h' | Located(lines, s', e', a', h') ensures s' == s && e' == e && a' == a && h' == h {
      LocatedOnce(lines, s, e, a, h, s', e', a', h');
    }
    EditAgain(lines, s, e, a, h, quoted, docker, once, again);
  }

  lemma EditAgain(
    lines: seq<string>, s: int, e: int, a: int, h: int, quoted: string, docker: bool,
    once: seq<string>, again: Option<seq<string>>)
    requires 0 <= s < a < e <= |lines| && (h == -1 || s < h < e)
    requires Located(lines, s, e, a, h) && Edit(lines, s, e, a, h, quoted, docker) == Some(once)
    requires Patched(once, quoted, docker, again)
    ensures again ==
              if !docker || h != -1 || Scan(Addressed(lines, a, quoted), s + 1, e).Some? then Some(once) else None
  {
    hide Located, ItemOf, AddressLine, Scan;
    var edited := Addressed(lines, a, quoted);
    AddressedLocated(lines, s, e, a, h, quoted);
    assert docker && h == -1 ==> |once| == |edited| + 2;
    if once == edited {
      assert docker && h >= 0 && Scan(edited, h + 1, e) != Some(true) ==> |once| == |edited| + 1;
      assert Addressed(once, a, quoted) == once;
      assert again == Edit(once, s, e, a, h, quoted, docker);
    } else if h >= 0 {
      EntryAgain(edited, s, e, a, h, quoted, once, again);
    } else {
      BlockAgain(edited, s, e, a, quoted, once, again);
    }
  }

  lemma EntryAgain(
    edited: seq<string>, s: int, e: int, a: int, h: int, quoted: string,
    once: seq<string>, again: Option<seq<string>>)
    requires Located(edited, s, e, a, h) && h >= 0 && edited[a] == AddressLine(quoted)
    requires Scan(edited, h + 1, e) == Some(false)
    requires once == edited[..h + 1] + [ENTRY] + edited[h + 1..] && Patched(once, quoted, true, again)
    ensures again == Some(once)
  {
    hide IsHeader, IsServiceKey, IsAddress, IsHosts, IsBlockHosts, ItemOf, AddressLine, Scan;
    EntryMaps(edited, s, e, a, h, once);
    var a' := if a <= h then a else a + 1;
    assert again == Edit(once, s, e + 1, a', h, quoted, true) && Addressed(once, a', quoted) == once;
  }

  lemma BlockAgain(
    edited: seq<string>, s: int, e: int, a: int, quoted: string, once: seq<string>, again: Option<seq<string>>)
    requires Located(edited, s, e, a, -1) && edited[a] == AddressLine(quoted)
    requires once == edited[..s + 1] + [HOSTS, ENTRY] + edited[s + 1..] && Patched(once, quoted, true, again)
    ensures again == if Scan(edited, s + 1, e).Some? then Some(once) else None
  {
    hide IsHeader, IsServiceKey, IsAddress, IsHosts, IsBlockHosts, ItemOf, AddressLine, Scan;
    BlockMaps(edited, s, e, a, once);
    assert again == Edit(once, s, e + 2, a + 2, s + 1, quoted, true) && Addressed(once, a + 2, quoted) == once;
  }

  /** What a successful patch achieves: the service has exactly one address line, the new one, and for the
      Docker host - room permitting - a hosts block that maps it. */
  lemma PatchAchieves(lines: seq<string>, quoted: string, docker: bool, r: seq<string>)
    returns (s: int, e: int, a: int, h: int)
    requires Patched(lines, quoted, docker, Some(r))
    ensures Located(r, s, e, a, h) && r[a] == AddressLine(quoted)
    ensures docker && RoomForBlock(lines, quoted) ==> h >= 0 && Scan(r, h + 1, e) == Some(true)
  {
    hide IsHeader, IsServiceKey, IsAddress, IsHosts, IsBlockHosts, Edit, Scan, AddressLine;
    var s0, e0, a0, h0 :| Located(lines, s0, e0, a0, h0);
    s, e, a, h := EditAchieves(lines, s0, e0, a0, h0, quoted, docker, r);
  }

  lemma EditAchieves(
    lines: seq<string>, s0: int, e0: int, a0: int, h0: int, quoted: string, docker: bool, r: seq<string>)
    returns (s: int, e: int, a: int, h: int)
    requires 0 <= s0 < a0 < e0 <= |lines| && (h0 == -1 || s0 < h0 < e0)
    requires Located(lines, s0, e0, a0, h0) && Edit(lines, s0, e0, a0, h0, quoted, docker) == Some(r)
    ensures Located(r, s, e, a, h) && r[a] == AddressLine(quoted)
    ensures docker && (h0 == -1 ==> Scan(Addressed(lines, a0, quoted), s0 + 1, e0).Some?) ==>
              h >= 0 && Scan(r, h + 1, e) == Some(true)
  {
    hide Located, ItemOf, AddressLine, Scan;
    var edited := Addressed(lines, a0, quoted);
    AddressedLocated(lines, s0, e0, a0, h0, quoted);
    if r == edited {
      assert docker && h0 == -1 ==> |r| == |edited| + 2;
      assert docker && h0 >= 0 && Scan(edited, h0 + 1, e0) != Some(true) ==> |r| == |edited| + 1;
      s, e, a, h := s0, e0, a0, h0;
    } else if h0 >= 0 {
      s, e, a, h := s0, e0 + 1, if a0 <= h0 then a0 else a0 + 1, h0;
      EntryMaps(edited, s0, e0, a0, h0, r);
    } else {
      s, e, a, h := s0, e0 + 2, a0 + 2, s0 + 1;
      BlockMaps(edited, s0, e0, a0, r);
    }
  }

  lemma EntryMaps(edited: seq<string>, s: int, e: int, a: int, h: int, r: seq<string>)
    requires Located(edited, s, e, a, h) && h >= 0 && Scan(edited, h + 1, e) == Some(false)
    requires r == edited[..h + 1] + [ENTRY] + edited[h + 1..]
    ensures var a' := if a <= h then a else a + 1;
            Located(r, s, e + 1, a', h) && r[a'] == edited[a] && Scan(r, h + 1, e + 1) == Some(true)
  {
    hide IsHeader, IsServiceKey, IsAddress, IsHosts, IsBlockHosts, ItemOf;
    EntryLineIs();
    InsertedLocated(edited, s, e, a, h, h, [ENTRY], h);
    ScanShifted(edited, h + 1, [ENTRY], h + 1, e);
    assert r[h + 1] == ENTRY;
  }

  lemma BlockMaps(edited: seq<string>, s: int, e: int, a: int, r: seq<string>)
    requires Located(edited, s, e, a, -1)
    requires r == edited[..s + 1] + [HOSTS, ENTRY] + edited[s + 1..]
    ensures Located(r, s, e + 2, a + 2, s + 1) && r[a + 2] == edited[a]
    ensures Scan(r, s + 2, e + 2) == if Scan(edited, s + 1, e).None? then None else Some(true)
  {
    hide IsHeader, IsServiceKey, IsAddress, IsHosts, IsBlockHosts, ItemOf;
    EntryLineIs();
    HostsLineIs();
    InsertedLocated(edited, s, e, a, -1, s, [HOSTS, ENTRY], s + 1);
    ScanShifted(edited, s + 1, [HOSTS, ENTRY], s + 1, e);
    assert r[s + 2] == ENTRY;
  }

  /** The service's keys are indented four spaces: the first line below its own that is neither blank nor a
      comment ends a hosts block. */
  ghost predicate FourSpaceKeys(lines: seq<string>, s: int, e: int)
    requires 0 <= s && e <= |lines|
  {
    exists k :: s < k < e && ItemOf(lines[k]) == BlockEnd && forall i | s < i < k :: ItemOf(lines[i]) == Skipped
  }

  lemma {:induction false} SkipsToEnd(lines: seq<string>, i: nat, k: nat, e: nat)
    requires i <= k < e <= |lines| && ItemOf(lines[k]) == BlockEnd
    requires forall j | i <= j < k :: ItemOf(lines[j]) == Skipped
    ensures Scan(lines, i, e) == Some(false)
    decreases k - i
  {
    hide ItemOf;
    if i < k { SkipsToEnd(lines, i + 1, k, e); }
  }

  lemma RoomAbove(lines: seq<string>, s: int, e: int, a: int, h: int, quoted: string)
    requires Located(lines, s, e, a, h) && FourSpaceKeys(lines, s, e)
    ensures Scan(Addressed(lines, a, quoted), s + 1, e).Some?
  {
    hide ItemOf, Scan, IsHeader, IsServiceKey, IsAddress, IsHosts, IsBlockHosts, AddressLine;
    var edited := Addressed(lines, a, quoted);
    var k :| s < k < e && ItemOf(lines[k]) == BlockEnd && forall i | s < i < k :: ItemOf(lines[i]) == Skipped;
    AddressItem(lines[a]);
    assert a > k;
    assert forall i | s < i <= k :: edited[i] == lines[i];
    SkipsToEnd(edited, s + 1, k, e);
  }

  /** Then there is always room for the block, and the patch is idempotent. */
  lemma FourSpaceKeysAreEnough(
    lines: seq<string>, quoted: string, docker: bool, once: seq<string>, again: Option<seq<string>>)
    requires forall s, e, a, h | Located(lines, s, e, a, h) :: FourSpaceKeys(lines, s, e)
    requires Patched(lines, quoted, docker, Some(once)) && Patched(once, quoted, docker, again)
    ensures RoomForBlock(lines, quoted) && again == Some(once)
  {
    hide ItemOf, Scan, IsHeader, IsServiceKey, IsAddress, IsHosts, IsBlockHosts, AddressLine, FourSpaceKeys, Patched;
    forall s, e, a, h | Located(lines, s, e, a, h) && h == -1
      ensures Scan(Addressed(lines, a, quoted), s + 1, e).Some?
    {
      RoomAbove(lines, s, e, a, h, quoted);
    }
    IdempotentIff(lines, quoted, docker, once, again);
  }

  /** Without such keys it need not be: a service whose first line below its own is the address. */
  lemma SecondPatchCanBeRefused(present: string, quoted: string)
    returns (lines: seq<string>, once: seq<string>)
    ensures lines == [HEADER, AddressLine(present)]
    ensures Patched(lines, quoted, true, Some(once)) && Patched(once, quoted, true, None)
  {
    hide IsAddress, IsServiceKey, IsHosts, IsBlockHosts, ItemOf;
    lines := [HEADER, AddressLine(present)];
    HeaderIsHeader();
    AddressLineIs(present);
    assert Located(lines, 0, 2, 1, -1);
    var edited := Addressed(lines, 1, quoted);
    AddressedLocated(lines, 0, 2, 1, -1, quoted);
    once := edited[..1] + [HOSTS, ENTRY] + edited[1..];
    BlockMaps(edited, 0, 2, 1, once);
    AddressLineIs(quoted);
    AddressItem(edited[1]);
    assert Scan(edited, 1, 2) == None;
    assert Located(once, 0, 4, 3, 1) && once[3] == edited[1] && Scan(once, 2, 4) == None;
    assert Addressed(once, 3, quoted) == once;
    OnlyEdit(lines, 0, 2, 1, -1, quoted, true, Some(once));
    OnlyEdit(once, 0, 4, 3, 1, quoted, true, None);
  }

  lemma OnlyEdit(
    lines: seq<string>, s: int, e: int, a: int, h: int, quoted: string, docker: bool, r: Option<seq<string>>)
    requires 0 <= s < a < e <= |lines| && (h == -1 || s < h < e)
    requires Located(lines, s, e, a, h) && r == Edit(lines, s, e, a, h, quoted, docker)
    ensures Patched(lines, quoted, docker, r)
  {
    hide Edit;
    forall s', e', a', h' | Located(lines, s', e', a', h') ensures s' == s && e' == e && a' == a && h' == h {
      LocatedOnce(lines, s, e, a, h, s', e', a', h');
    }
  }

  /** Every text has an answer. */
  lemma Answered(lines: seq<string>, quoted: string, docker: bool) returns (r: Option<seq<string>>)
    ensures Patched(lines, quoted, docker, r)
  {
    hide Edit, IsHeader, IsServiceKey, IsAddress, IsHosts, IsBlockHosts;
    if s, e, a, h :| Located(lines, s, e, a, h) {
      r := Edit(lines, s, e, a, h, quoted, docker);
      OnlyEdit(lines, s, e, a, h, quoted, docker, r);
    } else {
      r := None;
    }
  }

  // ---- The text ----

  /** What `patchLensCompose` answers for a whole file. */
  ghost predicate PatchedText(text: string, quoted: string, docker: bool, r: Option<string>) {
    exists lines :: Patched(Split(text), quoted, docker, lines) &&
                    r == if lines.Some? then Some(Join(lines.value)) else None
  }

  method PatchText(text: string, quoted: string, docker: bool) returns (r: Option<string>)
    ensures PatchedText(text, quoted, docker, r)
  {
    var lines := PatchLensCompose(Split(text), quoted, docker);
    r := if lines.Some? then Some(Join(lines.value)) else None;
  }

  /** Patched lines are lines. */
  lemma StillLines(lines: seq<string>, quoted: string, docker: bool, r: seq<string>)
    requires Patched(lines, quoted, docker, Some(r)) && '\n' !in quoted && forall x | x in lines :: '\n' !in x
    ensures r != [] && forall x | x in r :: '\n' !in x
  {
    hide Patched, IsAddress, AddressLine;
    var a, at, inserted := OtherLinesKept(lines, quoted, docker, Some(r));
    NewLinesAreLines(quoted);
    var edited := Addressed(lines, a, quoted);
    forall x | x in edited ensures '\n' !in x {
      var i :| 0 <= i < |edited| && edited[i] == x;
      if i != a { assert x == lines[i]; }
    }
  }

  lemma NewLinesAreLines(quoted: string)
    requires '\n' !in quoted
    ensures '\n' !in AddressLine(quoted) && '\n' !in ENTRY && '\n' !in HOSTS
  {
  }

  /** On the text, too: patching the patched file again changes nothing when no block had to be inserted or
      there was room for it, and is refused otherwise. */
  lemma TextIdempotentIff(text: string, quoted: string, docker: bool, once: string, again: Option<string>)
    requires '\n' !in quoted
    requires PatchedText(text, quoted, docker, Some(once)) && PatchedText(once, quoted, docker, again)
    ensures again == if !docker || RoomForBlock(Split(text), quoted) then Some(once) else None
  {
    hide Patched, RoomForBlock, Split, Join;
    var lines :| Patched(Split(text), quoted, docker, Some(lines)) && once == Join(lines);
    StillLines(Split(text), quoted, docker, lines);
    SplitJoin(lines);
    var next :| Patched(lines, quoted, docker, next) && again == if next.Some? then Some(Join(next.value)) else None;
    IdempotentIff(Split(text), quoted, docker, lines, next);
    if next.Some? {
      StillLines(lines, quoted, docker, next.value);
      SplitJoin(next.value);
    }
  }
}
