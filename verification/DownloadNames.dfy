/** Directory names for the groups of a snapshot download: one per group, never alike on a file system that
    ignores case, and short enough for any.

    A string is a sequence of runes; its length on disk is that of its UTF-8 encoding. */
module DownloadNames {
  import opened Decimal
  import opened Sets

  const MAX_BYTES := 180
  const HEX := "0123456789abcdef"

  datatype Group = Group(sourcePath: string, snapshotID: string)

  /** What the names are made with: the sanitized path of a source, eight hex digits of a hash, and the lower
      case of a rune. */
  datatype Library = Library(sanitize: string -> string, hash: string -> string, lower: char -> char)

  ghost predicate Faithful(lib: Library) {
    && (forall s :: |lib.hash(s)| == 8 && forall c | c in lib.hash(s) :: c in HEX)
    && (forall c | c in HEX :: lib.lower(c) == c) && lib.lower('-') == '-'
  }

  function Width(c: char): (w: nat)
    ensures 1 <= w <= 4
  {
    if c as int < 0x80 then 1 else if c as int < 0x800 then 2 else if c as int < 0x10000 then 3 else 4
  }

  function ByteLength(s: string): nat {
    if s == "" then 0 else ByteLength(s[..|s| - 1]) + Width(s[|s| - 1])
  }

  function Lower(lib: Library, s: string): (r: string)
    ensures |r| == |s| && forall i | 0 <= i < |s| :: r[i] == lib.lower(s[i])
  {
    seq(|s|, i requires 0 <= i < |s| => lib.lower(s[i]))
  }

  /** The longest prefix of whole runes that fits into `limit` bytes. */
  function Fitting(value: string, limit: nat): (r: string)
    ensures r <= value && ByteLength(r) <= limit
  {
    if ByteLength(value) <= limit then value else Fitting(value[..|value| - 1], limit)
  }

  lemma {:induction false} FittingIsLongest(value: string, limit: nat)
    ensures var r := Fitting(value, limit);
            r == value || ByteLength(value[..|r| + 1]) > limit
  {
    if ByteLength(value) > limit {
      var shorter, r := value[..|value| - 1], Fitting(value, limit);
      FittingIsLongest(shorter, limit);
      assert value[..|r| + 1] == if r == shorter then value else shorter[..|r| + 1];
    }
  }

  function TrimRight(s: string): (r: string)
    ensures r <= s
  {
    if s != "" && s[|s| - 1] in " ._" then TrimRight(s[..|s| - 1]) else s
  }

  /** `truncateSnapshotDownloadDirectoryName`. */
  function Truncated(value: string, suffix: string): string {
    var limit := MAX_BYTES - ByteLength(suffix);
    if limit < 1 || ByteLength(value) <= limit then value + suffix
    else TrimRight(Fitting(value, limit)) + suffix
  }

  /** The `index`-th name tried for a group; the first is the plain one. */
  function Candidate(lib: Library, g: Group, crowded: bool, index: nat): string {
    var base := lib.sanitize(g.sourcePath);
    if index <= 1 then
      Truncated(base, if crowded || ByteLength(base) > MAX_BYTES then "--" + lib.hash(g.sourcePath) else "")
    else
      Truncated(base, CollisionSuffix(lib, g, index))
  }

  function CollisionSuffix(lib: Library, g: Group, index: nat): string {
    "--" + lib.hash(g.sourcePath + "\0" + g.snapshotID) + "-" + Numeral(index)
  }

  // ---- Lengths ----

  lemma {:induction false} ByteLengthConcat(a: string, b: string)
    ensures ByteLength(a + b) == ByteLength(a) + ByteLength(b)
    decreases |b|
  {
    if b == "" {
      assert a + b == a;
    } else {
      assert (a + b)[..|a + b| - 1] == a + b[..|b| - 1];
      ByteLengthConcat(a, b[..|b| - 1]);
    }
  }

  lemma PrefixIsShorter(a: string, b: string)
    requires a <= b
    ensures ByteLength(a) <= ByteLength(b)
  {
    assert b == a + b[|a|..];
    ByteLengthConcat(a, b[|a|..]);
  }

  lemma {:induction false} AsciiLength(s: string)
    requires forall c | c in s :: c in HEX || c == '-'
    ensures ByteLength(s) == |s|
  {
    if s != "" {
      AsciiLength(s[..|s| - 1]);
      assert s[|s| - 1] in s;
    }
  }

  lemma TruncatedFits(value: string, suffix: string)
    requires ByteLength(suffix) < MAX_BYTES
    ensures ByteLength(Truncated(value, suffix)) <= MAX_BYTES
  {
    hide ByteLength, Fitting, TrimRight;
    var limit := MAX_BYTES - ByteLength(suffix);
    if ByteLength(value) <= limit {
      ByteLengthConcat(value, suffix);
    } else {
      var cut := Fitting(value, limit);
      PrefixIsShorter(TrimRight(cut), cut);
      ByteLengthConcat(TrimRight(cut), suffix);
    }
  }

  lemma TruncatedNothing(base: string)
    requires ByteLength(base) <= MAX_BYTES
    ensures Truncated(base, "") == base
  {
    assert base + "" == base;
  }

  /** Room for a suffix with an index of at most 168 digits. */
  lemma CandidateFits(lib: Library, g: Group, crowded: bool, index: nat)
    requires Faithful(lib) && index < Power10(168)
    ensures ByteLength(Candidate(lib, g, crowded, index)) <= MAX_BYTES
  {
    hide Lower, Power10, Numeral, ByteLength, Truncated;
    var base := lib.sanitize(g.sourcePath);
    if index > 1 {
      var suffix := CollisionSuffix(lib, g, index);
      NumeralLength(index, 168);
      AsciiLength(suffix);
      TruncatedFits(base, suffix);
    } else if crowded || ByteLength(base) > MAX_BYTES {
      var suffix := "--" + lib.hash(g.sourcePath);
      AsciiLength(suffix);
      TruncatedFits(base, suffix);
    } else {
      TruncatedNothing(base);
    }
  }

  // ---- Collisions ----

  lemma LowerConcat(lib: Library, a: string, b: string)
    ensures Lower(lib, a + b) == Lower(lib, a) + Lower(lib, b)
  {
  }

  function AfterLastHyphen(s: string): string {
    if s == "" || s[|s| - 1] == '-' then "" else AfterLastHyphen(s[..|s| - 1]) + [s[|s| - 1]]
  }

  /** What follows the last hyphen is determined by the whole. */
  lemma {:induction false} HyphenSplits(a: string, d: string)
    requires '-' !in d
    ensures AfterLastHyphen(a + "-" + d) == d
    decreases |d|
  {
    var s := a + "-" + d;
    if d != "" {
      assert s[..|s| - 1] == a + "-" + d[..|d| - 1];
      HyphenSplits(a, d[..|d| - 1]);
    }
  }

  /** Different collision indexes give names that differ even without case. */
  lemma CandidatesDiffer(lib: Library, g: Group, crowded: bool, i: nat, j: nat)
    requires Faithful(lib) && 2 <= i && 2 <= j
    requires Lower(lib, Candidate(lib, g, crowded, i)) == Lower(lib, Candidate(lib, g, crowded, j))
    ensures i == j
  {
    var a := EndsInIndex(lib, g, crowded, i);
    var b := EndsInIndex(lib, g, crowded, j);
    HyphenSplits(a, Numeral(i));
    HyphenSplits(b, Numeral(j));
    ParseNumeral(i);
    ParseNumeral(j);
  }

  lemma EndsInIndex(lib: Library, g: Group, crowded: bool, i: nat) returns (a: string)
    requires Faithful(lib) && 2 <= i
    ensures Lower(lib, Candidate(lib, g, crowded, i)) == a + "-" + Numeral(i)
  {
    var base := BeforeSuffix(lib.sanitize(g.sourcePath), CollisionSuffix(lib, g, i));
    var head := "--" + lib.hash(g.sourcePath + "\0" + g.snapshotID);
    assert base + CollisionSuffix(lib, g, i) == base + head + "-" + Numeral(i);
    LowerConcat(lib, base + head + "-", Numeral(i));
    LowerConcat(lib, base + head, "-");
    LowerOfNumeral(lib, i);
    a := Lower(lib, base + head);
  }

  lemma BeforeSuffix(value: string, suffix: string) returns (base: string)
    ensures Truncated(value, suffix) == base + suffix
  {
    var limit := MAX_BYTES - ByteLength(suffix);
    base := if limit < 1 || ByteLength(value) <= limit then value else TrimRight(Fitting(value, limit));
  }

  lemma LowerOfNumeral(lib: Library, i: nat)
    requires Faithful(lib)
    ensures Lower(lib, Numeral(i)) == Numeral(i)
  {
    var s := Numeral(i);
    forall k | 0 <= k < |s| ensures lib.lower(s[k]) == s[k] {
      assert IsDigit(s[k]);
      assert s[k] == HEX[s[k] as int - '0' as int];
    }
  }

  /** Keys of the candidates numbered from 2 up to, not including, `n`. */
  ghost function TriedKeys(lib: Library, g: Group, crowded: bool, n: nat): set<string> {
    set i | 2 <= i < n :: Lower(lib, Candidate(lib, g, crowded, i))
  }

  lemma {:induction false} TriedKeysSize(lib: Library, g: Group, crowded: bool, n: nat)
    requires Faithful(lib) && 2 <= n
    ensures |TriedKeys(lib, g, crowded, n)| == n - 2
    decreases n
  {
    hide Candidate, Lower, Faithful;
    if n > 2 {
      TriedKeysSize(lib, g, crowded, n - 1);
      var key := Lower(lib, Candidate(lib, g, crowded, n - 1));
      OneMoreKey(lib, g, crowded, n - 1);
      if key in TriedKeys(lib, g, crowded, n - 1) {
        var i :| 2 <= i < n - 1 && Lower(lib, Candidate(lib, g, crowded, i)) == key;
        CandidatesDiffer(lib, g, crowded, i, n - 1);
      }
    } else {
      assert TriedKeys(lib, g, crowded, n) == {};
    }
  }

  lemma OneMoreKey(lib: Library, g: Group, crowded: bool, n: nat)
    requires 2 <= n
    ensures TriedKeys(lib, g, crowded, n + 1) ==
              TriedKeys(lib, g, crowded, n) + {Lower(lib, Candidate(lib, g, crowded, n))}
  {
    hide Candidate, Lower;
  }

  /** If every candidate so far was taken, at least as many names are taken. */
  lemma TriesAreBounded(lib: Library, g: Group, crowded: bool, n: nat, used: set<string>)
    requires Faithful(lib) && 1 <= n
    requires forall i | 1 <= i < n :: Lower(lib, Candidate(lib, g, crowded, i)) in used
    ensures n <= |used| + 2
  {
    if n >= 2 {
      TriedKeysSize(lib, g, crowded, n);
      SubsetSize(TriedKeys(lib, g, crowded, n), used);
    }
  }

  // ---- The names ----

  /** How many groups have this base name, ignoring case. */
  function Crowd(lib: Library, groups: seq<Group>, key: string): nat {
    if groups == [] then 0
    else Crowd(lib, groups[..|groups| - 1], key) +
         if Lower(lib, lib.sanitize(groups[|groups| - 1].sourcePath)) == key then 1 else 0
  }

  predicate Crowded(lib: Library, groups: seq<Group>, g: Group) {
    Crowd(lib, groups, Lower(lib, lib.sanitize(g.sourcePath))) > 1
  }

  function Keys(lib: Library, names: seq<string>): set<string> {
    set i | 0 <= i < |names| :: Lower(lib, names[i])
  }

  /** The first candidate of the group that no earlier name has taken. */
  ghost predicate FirstFree(lib: Library, groups: seq<Group>, names: seq<string>, k: nat)
    requires k < |groups| && k < |names|
  {
    var g, crowded := groups[k], Crowded(lib, groups, groups[k]);
    exists n: nat | 1 <= n <= k + 2 ::
      && names[k] == Candidate(lib, g, crowded, n)
      && Lower(lib, names[k]) !in Keys(lib, names[..k])
      && forall i | 1 <= i < n :: Lower(lib, Candidate(lib, g, crowded, i)) in Keys(lib, names[..k])
  }

  lemma KeysAppend(lib: Library, names: seq<string>, name: string)
    ensures Keys(lib, names + [name]) == Keys(lib, names) + {Lower(lib, name)}
  {
    var more := names + [name];
    assert more[|names|] == name;
    forall i | 0 <= i < |names| ensures more[i] == names[i] {
    }
  }

  method CountBases(lib: Library, groups: seq<Group>) returns (counts: map<string, nat>)
    ensures forall k | 0 <= k < |groups| ::
              var key := Lower(lib, lib.sanitize(groups[k].sourcePath));
              key in counts && counts[key] == Crowd(lib, groups, key)
  {
    counts := map[];
    for k := 0 to |groups|
      invariant forall key :: key in counts <==> Crowd(lib, groups[..k], key) > 0
      invariant forall key | key in counts :: counts[key] == Crowd(lib, groups[..k], key)
      invariant forall i | 0 <= i < k :: Lower(lib, lib.sanitize(groups[i].sourcePath)) in counts
    {
      var key := Lower(lib, lib.sanitize(groups[k].sourcePath));
      assert groups[..k + 1][..k] == groups[..k];
      counts := counts[key := (if key in counts then counts[key] else 0) + 1];
    }
    assert groups[..|groups|] == groups;
  }

  /** The collision loop: it ends because different indexes give different names, and only finitely many
      are taken. */
  method PickName(lib: Library, g: Group, crowded: bool, used: set<string>) returns (name: string, ghost index: nat)
    requires Faithful(lib)
    ensures 1 <= index <= |used| + 2 && name == Candidate(lib, g, crowded, index)
    ensures Lower(lib, name) !in used
    ensures forall i | 1 <= i < index :: Lower(lib, Candidate(lib, g, crowded, i)) in used
  {
    name, index := Candidate(lib, g, crowded, 1), 1;
    var collisionIndex := 2;
    while Lower(lib, name) in used
      invariant collisionIndex == index + 1 && name == Candidate(lib, g, crowded, index)
      invariant forall i | 1 <= i < index :: Lower(lib, Candidate(lib, g, crowded, i)) in used
      decreases |used| + 2 - index
    {
      TriesAreBounded(lib, g, crowded, index + 1, used);
      name := Truncated(lib.sanitize(g.sourcePath), CollisionSuffix(lib, g, collisionIndex));
      index := index + 1;
      collisionIndex := collisionIndex + 1;
    }
    TriesAreBounded(lib, g, crowded, index, used);
  }

  /** The names are right so far. */
  ghost predicate Named(lib: Library, groups: seq<Group>, names: seq<string>) {
    |names| <= |groups| && forall k | 0 <= k < |names| :: FirstFree(lib, groups, names, k)
  }

  lemma NamedAppend(lib: Library, groups: seq<Group>, names: seq<string>, name: string, n: nat)
    requires Named(lib, groups, names) && |names| < |groups| && 1 <= n <= |names| + 2
    requires var g := groups[|names|];
             && name == Candidate(lib, g, Crowded(lib, groups, g), n)
             && Lower(lib, name) !in Keys(lib, names)
             && forall i | 1 <= i < n :: Lower(lib, Candidate(lib, g, Crowded(lib, groups, g), i)) in Keys(lib, names)
    ensures Named(lib, groups, names + [name])
  {
    hide Candidate, Crowded, Lower, Keys;
    var more := names + [name];
    assert more[..|names|] == names;
    forall k | 0 <= k < |names| ensures FirstFree(lib, groups, more, k) {
      assert more[..k] == names[..k] && FirstFree(lib, groups, names, k);
    }
  }

  /** Names chosen one after the other differ pairwise, and all fit. */
  lemma NamedIsEnough(lib: Library, groups: seq<Group>, names: seq<string>)
    requires Faithful(lib) && Named(lib, groups, names)
    ensures forall i, j | 0 <= i < j < |names| :: Lower(lib, names[i]) != Lower(lib, names[j])
    ensures |groups| + 1 < Power10(168) ==> forall k | 0 <= k < |names| :: ByteLength(names[k]) <= MAX_BYTES
  {
    forall i, j | 0 <= i < j < |names| ensures Lower(lib, names[i]) != Lower(lib, names[j]) {
      assert FirstFree(lib, groups, names, j);
      assert names[..j][i] == names[i];
    }
    if |groups| + 1 < Power10(168) {
      forall k | 0 <= k < |names| ensures ByteLength(names[k]) <= MAX_BYTES {
        assert FirstFree(lib, groups, names, k);
        var n: nat :| 1 <= n <= k + 2 && names[k] == Candidate(lib, groups[k], Crowded(lib, groups, groups[k]), n);
        CandidateFits(lib, groups[k], Crowded(lib, groups, groups[k]), n);
      }
    }
  }

  /** `snapshotDownloadSourceDirectoryNames`. */
  method SourceDirectoryNames(lib: Library, groups: seq<Group>) returns (names: seq<string>)
    requires Faithful(lib)
    ensures |names| == |groups|
    ensures forall i, j | 0 <= i < j < |names| :: Lower(lib, names[i]) != Lower(lib, names[j])
    ensures |groups| + 1 < Power10(168) ==> forall k | 0 <= k < |names| :: ByteLength(names[k]) <= MAX_BYTES
    ensures forall k | 0 <= k < |names| :: FirstFree(lib, groups, names, k)
  {
    var counts := CountBases(lib, groups);
    names := [];
    var used: set<string> := {};
    for k := 0 to |groups|
      invariant |names| == k && Named(lib, groups, names) && used == Keys(lib, names) && |used| <= k
    {
      hide Candidate, Keys, Named;
      var g := groups[k];
      var crowded := counts[Lower(lib, lib.sanitize(g.sourcePath))] > 1;
      var name, index := PickName(lib, g, crowded, used);
      NamedAppend(lib, groups, names, name, index);
      KeysAppend(lib, names, name);
      names := names + [name];
      used := used + {Lower(lib, name)};
    }
    NamedIsEnough(lib, groups, names);
  }
}
