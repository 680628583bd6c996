/** Patching the server address into an environment file, line by line. */
module EnvPatch {
  import opened EnvLines
  import opened GoText
  import opened TextLines
  import opened Wrappers

  /** The keys that are added when no line assigns them. */
  const ADDED := ["HFL_API_BASE", "HFL_WSS_URL", "LENS_BASE_URL"]

  // ---- Empty lines at the end ----

  /** Lines without the empty ones at the end; the first stays. */
  function Undangled(lines: seq<string>): (r: seq<string>)
    ensures r <= lines && (lines != [] ==> r != []) && forall line | line in lines && line != "" :: line in r
  {
    if |lines| > 1 && lines[|lines| - 1] == "" then
      assert lines == lines[..|lines| - 1] + [""];
      Undangled(lines[..|lines| - 1])
    else lines
  }

  /** Cutting line feeds off the end of the text takes the empty lines off the end of the lines. */
  lemma {:induction false} CutJoin(lines: seq<string>)
    requires lines != [] && forall line | line in lines :: '\n' !in line
    ensures CutRight(Join(lines), "\n") == Join(Undangled(lines))
    decreases |lines|
  {
    var before, last := lines[..|lines| - 1], lines[|lines| - 1];
    assert lines == before + [last];
    if |lines| == 1 {
      assert last in lines;
    } else {
      JoinAppend(before, last);
      if last == "" {
        var text := Join(lines);
        assert text[..|text| - 1] == Join(before);
        CutJoin(before);
      } else {
        assert last[|last| - 1] in last;
      }
    }
  }

  // ---- One line ----

  /** The key a line assigns, if it assigns one. */
  function KeyOf(line: string): Option<string> {
    var k := EqualsAt(line);
    if k < |line| then Some(TrimSpace(line[..k])) else None
  }

  predicate Assigns(line: string, key: string) {
    KeyOf(line) == Some(key)
  }

  predicate Assigned(lines: seq<string>, key: string) {
    exists line | line in lines :: Assigns(line, key)
  }

  lemma AssignedAppend(lines: seq<string>, line: string, key: string)
    ensures Assigned(lines + [line], key) <==> Assigned(lines, key) || Assigns(line, key)
  {
    hide Assigns;
    assert line in lines + [line];
  }

  lemma NothingAssigned()
    ensures forall key :: !Assigned([], key)
  {
  }

  type Quote = string -> string

  predicate OnOneLine(changes: map<string, string>, quote: Quote) {
    forall key | key in changes :: '\n' !in quote(changes[key])
  }

  function Assignment(key: string, changes: map<string, string>, quote: Quote): string
    requires key in changes
  {
    key + "=" + quote(changes[key])
  }

  function Edited(line: string, changes: map<string, string>, quote: Quote): string {
    var key := KeyOf(line);
    if key.Some? && key.value in changes then Assignment(key.value, changes, quote) else line
  }

  /** A plain key is read back from its assignment. */
  lemma AssignmentAssigns(key: string, value: string)
    requires '=' !in key && TrimSpace(key) == key
    ensures Assigns(key + "=" + value, key)
  {
    hide TrimSpace, EqualsAt;
    EqualsAfter(key, value);
  }

  lemma KeyIsPlain(line: string, key: string)
    requires Assigns(line, key)
    ensures '=' !in key && TrimSpace(key) == key && ('\n' !in line ==> '\n' !in key)
  {
    hide TrimSpace;
    var k := EqualsAt(line);
    TrimmedPart(line[..k], '=');
    TrimSpaceIdempotent(line[..k]);
    if '\n' !in line { TrimmedPart(line[..k], '\n'); }
  }

  /** Editing an edited line changes nothing, and an edited line assigns what it assigned. */
  lemma EditedTwice(line: string, changes: map<string, string>, quote: Quote)
    requires '\n' !in line && OnOneLine(changes, quote)
    ensures KeyOf(Edited(line, changes, quote)) == KeyOf(line)
    ensures Edited(Edited(line, changes, quote), changes, quote) == Edited(line, changes, quote)
    ensures '\n' !in Edited(line, changes, quote)
  {
    hide TrimSpace, EqualsAt;
    if KeyOf(line).Some? && KeyOf(line).value in changes {
      var key := KeyOf(line).value;
      KeyIsPlain(line, key);
      AssignmentAssigns(key, quote(changes[key]));
    }
  }

  predicate Upper(s: string) {
    s != "" && forall i | 0 <= i < |s| :: 'A' <= s[i] <= 'Z' || s[i] == '_'
  }

  lemma AddedAreUpper()
    ensures forall key | key in ADDED :: Upper(key)
  {
    assert Upper("HFL_API_BASE");
    assert Upper("HFL_WSS_URL");
    assert Upper("LENS_BASE_URL");
  }

  lemma UpperIsPlain(key: string)
    requires Upper(key)
    ensures '=' !in key && '\n' !in key && TrimSpace(key) == key
  {
    TrimSpaceFixed(key);
  }

  // ---- All lines ----

  function EditedAll(lines: seq<string>, changes: map<string, string>, quote: Quote): (r: seq<string>)
    ensures |r| == |lines| && forall i | 0 <= i < |lines| :: r[i] == Edited(lines[i], changes, quote)
  {
    seq(|lines|, i requires 0 <= i < |lines| => Edited(lines[i], changes, quote))
  }

  /** Assignments of those of `keys` that change and that no line assigns. */
  function Missing(lines: seq<string>, keys: seq<string>, changes: map<string, string>, quote: Quote): seq<string> {
    if keys == [] then []
    else
      var more, key := Missing(lines, keys[..|keys| - 1], changes, quote), keys[|keys| - 1];
      if key in changes && !Assigned(lines, key)
      then more + [Assignment(key, changes, quote)] else more
  }

  function AllLines(raw: string, changes: map<string, string>, quote: Quote): seq<string> {
    EditedAll(Split(raw), changes, quote) + Missing(Split(raw), ADDED, changes, quote)
  }

  function Patched(raw: string, changes: map<string, string>, quote: Quote): string {
    CutRight(Join(AllLines(raw, changes, quote)), "\n") + "\n"
  }

  /** `patchEnv`: the slice of lines is edited in place, then extended. */
  method PatchEnv(raw: string, changes: map<string, string>, quote: Quote) returns (text: string)
    ensures text == Patched(raw, changes, quote)
  {
    hide Split, CutRight, Join, Missing, Edited, Assigned;
    var split := Split(raw);
    var lines := new string[|split|](i requires 0 <= i < |split| => split[i]);
    assert lines[..] == split;
    var seen := EditLines(lines, changes, quote);
    var added := AddMissing(split, seen, changes, quote);
    text := CutRight(Join(lines[..] + added), "\n") + "\n";
  }

  method AddMissing(ghost lines: seq<string>, seen: set<string>, changes: map<string, string>, quote: Quote)
    returns (added: seq<string>)
    requires forall key :: key in seen <==> key in changes && Assigned(lines, key)
    ensures added == Missing(lines, ADDED, changes, quote)
  {
    hide Assigned, Assignment;
    added := [];
    for k := 0 to |ADDED|
      invariant added == Missing(lines, ADDED[..k], changes, quote)
    {
      var key := ADDED[k];
      assert ADDED[..k + 1][..k] == ADDED[..k];
      if key in changes && key !in seen { added := added + [Assignment(key, changes, quote)]; }
    }
    assert ADDED[..|ADDED|] == ADDED;
  }

  method EditLines(lines: array<string>, changes: map<string, string>, quote: Quote) returns (seen: set<string>)
    modifies lines
    ensures lines[..] == EditedAll(old(lines[..]), changes, quote)
    ensures forall key :: key in seen <==> key in changes && Assigned(old(lines[..]), key)
  {
    hide KeyOf, Assigned;
    ghost var was := lines[..];
    seen := {};
    NothingAssigned();
    for i := 0 to lines.Length
      invariant forall j | 0 <= j < i :: lines[j] == Edited(was[j], changes, quote)
      invariant forall j | i <= j < lines.Length :: lines[j] == was[j]
      invariant forall key :: key in seen <==> key in changes && Assigned(was[..i], key)
    {
      var line := lines[i];
      assert was[..i + 1] == was[..i] + [line];
      forall key ensures Assigned(was[..i + 1], key) <==> Assigned(was[..i], key) || Assigns(line, key) {
        AssignedAppend(was[..i], line, key);
      }
      var key := KeyOf(line);
      if key.Some? && key.value in changes {
        lines[i] := Assignment(key.value, changes, quote);
        seen := seen + {key.value};
      }
    }
    assert was[..lines.Length] == was;
  }

  lemma {:induction false} MissingMembers(
    lines: seq<string>, keys: seq<string>, changes: map<string, string>, quote: Quote, x: string)
    requires forall key | key in keys :: key in ADDED
    ensures x in Missing(lines, keys, changes, quote) <==>
            exists key | key in keys && key in changes ::
              x == Assignment(key, changes, quote) && !Assigned(lines, key)
  {
    hide Assigned, Assignment;
    if keys != [] {
      MissingMembers(lines, keys[..|keys| - 1], changes, quote, x);
      assert keys == keys[..|keys| - 1] + [keys[|keys| - 1]];
    }
  }

  /** Every line is an edited line of the file or a new assignment, and neither changes when edited again. */
  lemma LineIsFixed(raw: string, changes: map<string, string>, quote: Quote, x: string)
    requires OnOneLine(changes, quote) && x in AllLines(raw, changes, quote)
    ensures '\n' !in x && Edited(x, changes, quote) == x
  {
    hide Edited, Assigned, KeyOf, Assignment, TrimSpace;
    var lines := Split(raw);
    if line :| line in lines && x == Edited(line, changes, quote) {
      EditedTwice(line, changes, quote);
    } else {
      assert x in Missing(lines, ADDED, changes, quote);
      MissingMembers(lines, ADDED, changes, quote, x);
      var key :| key in ADDED && key in changes && x == Assignment(key, changes, quote);
      NewAssignment(key, changes, quote);
    }
  }

  lemma NewAssignment(key: string, changes: map<string, string>, quote: Quote)
    requires key in ADDED && key in changes && OnOneLine(changes, quote)
    ensures var x := Assignment(key, changes, quote);
            '\n' !in x && Assigns(x, key) && Edited(x, changes, quote) == x
  {
    hide TrimSpace, EqualsAt;
    AddedAreUpper();
    UpperIsPlain(key);
    AssignmentAssigns(key, quote(changes[key]));
  }

  /** A changed key that may be added is assigned by some line. */
  lemma KeyIsAssigned(raw: string, changes: map<string, string>, quote: Quote, key: string)
    requires OnOneLine(changes, quote) && key in changes && key in ADDED
    ensures Assigned(AllLines(raw, changes, quote), key)
  {
    hide Edited, Assignment, KeyOf, TrimSpace;
    var lines := Split(raw);
    if Assigned(lines, key) {
      var i :| 0 <= i < |lines| && Assigns(lines[i], key);
      EditedTwice(lines[i], changes, quote);
      var x := AllLines(raw, changes, quote)[i];
      assert x == Edited(lines[i], changes, quote) && x in AllLines(raw, changes, quote);
      assert Assigns(x, key);
    } else {
      MissingMembers(lines, ADDED, changes, quote, Assignment(key, changes, quote));
      NewAssignment(key, changes, quote);
    }
  }

  /** The patched text, line by line: all lines without the empty ones at the end, and a final line feed. */
  lemma PatchedText(raw: string, changes: map<string, string>, quote: Quote)
    requires OnOneLine(changes, quote)
    ensures var lines := Undangled(AllLines(raw, changes, quote));
            && Patched(raw, changes, quote) == Join(lines) + "\n"
            && Split(Patched(raw, changes, quote)) == lines + [""]
  {
    hide CutRight, Split, AllLines, Edited;
    var all := AllLines(raw, changes, quote);
    forall x | x in all ensures '\n' !in x {
      LineIsFixed(raw, changes, quote, x);
    }
    NotEmpty(raw, changes, quote);
    CutJoin(all);
    var lines := Undangled(all);
    JoinAppend(lines, "");
    SplitJoin(lines + [""]);
    assert Join(lines) + "\n" + "" == Join(lines) + "\n";
  }

  lemma NotEmpty(raw: string, changes: map<string, string>, quote: Quote)
    ensures AllLines(raw, changes, quote) != []
  {
  }

  lemma {:induction false} NothingMissing(
    lines: seq<string>, keys: seq<string>, changes: map<string, string>, quote: Quote)
    requires forall key | key in keys && key in changes :: Assigned(lines, key)
    ensures Missing(lines, keys, changes, quote) == []
  {
    hide Assigned, Assignment;
    if keys != [] { NothingMissing(lines, keys[..|keys| - 1], changes, quote); }
  }

  /** Patching a patched file changes nothing. */
  lemma Idempotent(raw: string, changes: map<string, string>, quote: Quote)
    requires OnOneLine(changes, quote)
    ensures Patched(Patched(raw, changes, quote), changes, quote) == Patched(raw, changes, quote)
  {
    hide CutRight, Split, Edited, Assigned, Missing;
    var all, once := AllLines(raw, changes, quote), Patched(raw, changes, quote);
    var lines := Undangled(all);
    PatchedText(raw, changes, quote);
    FixedLines(raw, changes, quote, lines);
    NotEmpty(raw, changes, quote);
    assert AllLines(once, changes, quote) == lines + [""];
    assert (lines + [""])[..|lines + [""]| - 1] == lines;
    PatchedText(once, changes, quote);
    UndangledTwice(all);
  }

  lemma {:induction false} UndangledTwice(lines: seq<string>)
    ensures Undangled(Undangled(lines)) == Undangled(lines)
  {
    if |lines| > 1 && lines[|lines| - 1] == "" { UndangledTwice(lines[..|lines| - 1]); }
  }

  lemma FixedLines(raw: string, changes: map<string, string>, quote: Quote, lines: seq<string>)
    requires OnOneLine(changes, quote) && lines == Undangled(AllLines(raw, changes, quote))
    ensures EditedAll(lines + [""], changes, quote) == lines + [""]
    ensures Missing(lines + [""], ADDED, changes, quote) == []
  {
    hide AllLines, Edited, Assigned, Missing, KeyOf;
    var all := AllLines(raw, changes, quote);
    forall x | x in lines + [""] ensures Edited(x, changes, quote) == x {
      EmptyLine(changes, quote);
      if x in lines { LineIsFixed(raw, changes, quote, x); }
    }
    forall key | key in ADDED && key in changes ensures Assigned(lines + [""], key) {
      KeyIsAssigned(raw, changes, quote, key);
      StillAssigned(all, key);
    }
    NothingMissing(lines + [""], ADDED, changes, quote);
  }

  lemma EmptyLine(changes: map<string, string>, quote: Quote)
    ensures KeyOf("") == None && Edited("", changes, quote) == ""
  {
  }

  lemma StillAssigned(lines: seq<string>, key: string)
    requires Assigned(lines, key)
    ensures Assigned(Undangled(lines) + [""], key)
  {
    hide KeyOf;
    var line :| line in lines && Assigns(line, key);
    EmptyLine(map[], x => x);
  }

  // ---- What the patch keeps and achieves ----

  /** The lines that assign no changed key. */
  function Others(lines: seq<string>, changes: map<string, string>): seq<string> {
    if lines == [] then []
    else
      var before, line := Others(lines[..|lines| - 1], changes), lines[|lines| - 1];
      if KeyOf(line).Some? && KeyOf(line).value in changes then before else before + [line]
  }

  /** After patching, the changed keys that may be added are assigned, every assignment of a changed key is the
      new one, and all other lines are there as before, in order - but for empty ones at the end. */
  lemma PatchAchieves(raw: string, changes: map<string, string>, quote: Quote)
    returns (lines: seq<string>, blanks: nat)
    requires OnOneLine(changes, quote)
    ensures Patched(raw, changes, quote) == Join(lines) + "\n"
    ensures forall key | key in changes && key in ADDED :: Assigned(lines, key)
    ensures forall key, x | key in changes && x in lines && Assigns(x, key) :: x == Assignment(key, changes, quote)
    ensures Others(Split(raw), changes) == Others(lines, changes) + Blanks(blanks)
  {
    hide Split, Assigned, KeyOf, AllLines, Others;
    var all := AllLines(raw, changes, quote);
    lines := Undangled(all);
    PatchedText(raw, changes, quote);
    forall key | key in changes && key in ADDED ensures Assigned(lines, key) {
      KeyIsAssigned(raw, changes, quote, key);
      UndangledAssigns(all, key);
    }
    forall x | x in lines ensures Edited(x, changes, quote) == x {
      LineIsFixed(raw, changes, quote, x);
    }
    blanks := UndangledRest(all);
    BlanksAreOthers(blanks, changes);
    OthersConcat(lines, Blanks(blanks), changes);
    OthersKept(raw, changes, quote);
  }

  function Blanks(n: nat): seq<string> {
    seq(n, _ => "")
  }

  lemma UndangledAssigns(lines: seq<string>, key: string)
    requires Assigned(lines, key)
    ensures Assigned(Undangled(lines), key)
  {
    hide KeyOf;
    var line :| line in lines && Assigns(line, key);
    EmptyLine(map[], x => x);
  }

  lemma {:induction false} UndangledRest(lines: seq<string>) returns (blanks: nat)
    ensures lines == Undangled(lines) + Blanks(blanks)
  {
    blanks := 0;
    if |lines| > 1 && lines[|lines| - 1] == "" {
      var before := lines[..|lines| - 1];
      var k := UndangledRest(before);
      blanks := k + 1;
      assert lines == before + [""] && Blanks(k + 1) == Blanks(k) + [""];
    }
  }

  lemma {:induction false} BlanksAreOthers(n: nat, changes: map<string, string>)
    ensures Others(Blanks(n), changes) == Blanks(n)
  {
    if n > 0 {
      assert Blanks(n)[..n - 1] == Blanks(n - 1);
      EmptyLine(changes, x => x);
      BlanksAreOthers(n - 1, changes);
    }
  }

  lemma {:induction false} OthersConcat(a: seq<string>, b: seq<string>, changes: map<string, string>)
    ensures Others(a + b, changes) == Others(a, changes) + Others(b, changes)
    decreases |b|
  {
    hide KeyOf;
    if b == [] {
      assert a + b == a;
    } else {
      assert (a + b)[..|a + b| - 1] == a + b[..|b| - 1];
      OthersConcat(a, b[..|b| - 1], changes);
    }
  }

  lemma {:induction false} EditedOthers(lines: seq<string>, changes: map<string, string>, quote: Quote)
    requires OnOneLine(changes, quote) && forall line | line in lines :: '\n' !in line
    ensures Others(EditedAll(lines, changes, quote), changes) == Others(lines, changes)
  {
    hide KeyOf;
    if lines != [] {
      var before := lines[..|lines| - 1];
      EditedOthers(before, changes, quote);
      EditedTwice(lines[|lines| - 1], changes, quote);
      assert EditedAll(lines, changes, quote)[..|lines| - 1] == EditedAll(before, changes, quote);
    }
  }

  lemma {:induction false} NewOthers(lines: seq<string>, changes: map<string, string>)
    requires forall line | line in lines :: KeyOf(line).Some? && KeyOf(line).value in changes
    ensures Others(lines, changes) == []
  {
    hide KeyOf;
    if lines != [] { NewOthers(lines[..|lines| - 1], changes); }
  }

  lemma OthersKept(raw: string, changes: map<string, string>, quote: Quote)
    requires OnOneLine(changes, quote)
    ensures Others(AllLines(raw, changes, quote), changes) == Others(Split(raw), changes)
  {
    hide KeyOf, Assigned, Others, Assignment;
    var lines := Split(raw);
    var missing := Missing(lines, ADDED, changes, quote);
    EditedOthers(lines, changes, quote);
    forall x | x in missing ensures KeyOf(x).Some? && KeyOf(x).value in changes {
      MissingMembers(lines, ADDED, changes, quote, x);
      var key :| key in ADDED && key in changes && x == Assignment(key, changes, quote);
      NewAssignment(key, changes, quote);
    }
    NewOthers(missing, changes);
    OthersConcat(EditedAll(lines, changes, quote), missing, changes);
  }
}
