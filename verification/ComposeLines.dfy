/** What the lines of a managed Compose file mean to the patch. */
module ComposeLines {
  import opened GoText
  import opened Wrappers

  const HEADER := "  lensnode:"
  const ADDRESS := "      LENSNODE_SERVER_URL:"
  const HOSTS := "    extra_hosts:"
  const INDENT := "      "
  const MAPPED_HOST := "host.docker.internal:"
  const MAPPING := MAPPED_HOST + "host-gateway"
  const QUOTED := "\"" + MAPPING + "\""
  const ENTRY := INDENT + ("- " + QUOTED)

  /** The service's own key. */
  predicate IsHeader(line: string) {
    CutRight(line, " \t\r") == HEADER
  }

  /** A key at the level of services: two spaces, then something that is not blank, then a colon. */
  predicate IsServiceKey(line: string) {
    |line| > 3 && line[..2] == "  " && line[2] !in " \t#" && exists j | 3 <= j < |line| :: line[j] == ':'
  }

  predicate IsAddress(line: string) {
    ADDRESS <= line
  }

  predicate IsHosts(line: string) {
    HOSTS <= line
  }

  /** The mapping is a block, not something on the key's own line. */
  predicate IsBlockHosts(line: string) {
    IsHosts(line) && TrimSpace(line[|HOSTS|..]) == ""
  }

  /** One line below the hosts key. */
  datatype Item = Skipped | BlockEnd | Mapping | Conflict | OtherHost | Unsupported

  function ItemOf(line: string): Item {
    var text := TrimSpace(line);
    if text == "" || "#" <= text then Skipped
    else if !(INDENT <= line) then BlockEnd
    else if !("- " <= text) then Unsupported
    else
      var entry := CutRight(CutLeft(TrimSpace(text[2..]), "\"'"), "\"'");
      if MAPPED_HOST <= entry then if entry == MAPPING then Mapping else Conflict
      else OtherHost
  }

  /** Whether a hosts block from line `i` on maps the host; none for a block that is refused. */
  function Scan(lines: seq<string>, i: nat, end: nat): Option<bool>
    requires end <= |lines|
    decreases end - i
  {
    if i >= end then Some(false)
    else
      match ItemOf(lines[i])
      case BlockEnd => Some(false)
      case Unsupported => None
      case Conflict => None
      case Mapping => if Scan(lines, i + 1, end).None? then None else Some(true)
      case _ => Scan(lines, i + 1, end)
  }

  // ---- The lines the patch writes ----

  function AddressLine(quoted: string): string {
    ADDRESS + " " + quoted
  }

  lemma HeaderIsHeader()
    ensures IsHeader(HEADER)
  {
    var cut := " \t\r";
    assert HEADER[|HEADER| - 1] == ':' && ':' !in cut;
    NothingCutRight(HEADER, cut);
  }

  lemma NothingCutRight(s: string, cut: string)
    requires s != "" && s[|s| - 1] !in cut
    ensures CutRight(s, cut) == s
  {
  }

  lemma HeaderMeans(line: string)
    ensures IsHeader(line) ==> |line| > 2 && line[2] == 'l'
  {
    if IsHeader(line) { assert HEADER <= line && HEADER[2] == line[2]; }
  }

  lemma HostsMeans(line: string)
    ensures IsHosts(line) ==> |line| > 4 && line[4] == 'e'
  {
    if IsHosts(line) { assert HOSTS[4] == line[4]; }
  }

  lemma AddressMeans(line: string)
    ensures IsAddress(line) ==> |line| > 6 && line[2] == ' ' && line[4] == ' ' && line[6] == 'L'
  {
    if IsAddress(line) { assert ADDRESS[2] == line[2] && ADDRESS[4] == line[4] && ADDRESS[6] == line[6]; }
  }

  lemma AddressIsNoHosts(line: string)
    requires IsAddress(line)
    ensures !IsHosts(line) && !IsBlockHosts(line)
  {
    AddressMeans(line);
    HostsMeans(line);
  }

  lemma AddressLineIs(quoted: string)
    ensures var line := AddressLine(quoted);
            IsAddress(line) && !IsHeader(line) && !IsServiceKey(line) && !IsHosts(line)
  {
    var line := AddressLine(quoted);
    assert line[..|ADDRESS|] == ADDRESS;
    AddressMeans(line);
    HeaderMeans(line);
    HostsMeans(line);
  }

  lemma HostsLineIs()
    ensures IsBlockHosts(HOSTS) && !IsHeader(HOSTS) && !IsServiceKey(HOSTS) && !IsAddress(HOSTS)
  {
    assert HOSTS[|HOSTS|..] == "";
    assert HOSTS[2] == ' ' && HOSTS[4] == 'e';
    HeaderMeans(HOSTS);
    AddressMeans(HOSTS);
  }

  lemma EntryLineIs()
    ensures ItemOf(ENTRY) == Mapping
    ensures !IsHeader(ENTRY) && !IsServiceKey(ENTRY) && !IsAddress(ENTRY) && !IsHosts(ENTRY)
  {
    hide ItemOf, IsHeader, IsHosts, IsAddress;
    EntryIsMapping();
    assert ENTRY[2] == ' ' && ENTRY[4] == ' ' && ENTRY[6] == '-';
    HeaderMeans(ENTRY);
    HostsMeans(ENTRY);
    AddressMeans(ENTRY);
  }

  lemma EntryIsMapping()
    ensures ItemOf(ENTRY) == Mapping
  {
    hide IsSpace, TrimSpace, CutLeft, CutRight;
    var text := "- " + QUOTED;
    assert text[..2] == "- " && text[2..] == QUOTED && ENTRY[..6] == INDENT;
    Indented();
    QuotedEntry();
    assert MAPPING[..|MAPPED_HOST|] == MAPPED_HOST;
  }

  lemma QuotedEntry()
    ensures TrimSpace(QUOTED) == QUOTED
    ensures CutRight(CutLeft(QUOTED, "\"'"), "\"'") == MAPPING
  {
    hide IsSpace, TrimSpace, CutLeft, CutRight;
    assert QUOTED[0] == '"' && QUOTED[|QUOTED| - 1] == '"';
    QuotesAreNoSpace(QUOTED);
    assert MAPPING[0] == 'h' && MAPPING[|MAPPING| - 1] == 'y';
    Unquoted(MAPPING, "\"'");
  }

  lemma QuotesAreNoSpace(s: string)
    requires s != "" && s[0] == '"' && s[|s| - 1] == '"'
    ensures TrimSpace(s) == s
  {
    TrimSpaceFixed(s);
  }

  lemma Unquoted(s: string, cut: string)
    requires '"' in cut && s != "" && s[0] !in cut && s[|s| - 1] !in cut
    ensures CutRight(CutLeft("\"" + s + "\"", cut), cut) == s
  {
    var q := "\"" + s + "\"";
    assert q[1..] == s + "\"" && (s + "\"")[0] == s[0];
    assert (s + "\"")[..|s|] == s;
  }

  /** Trimming takes the indentation off the entry. */
  lemma Indented()
    ensures TrimSpace(ENTRY) == "- " + QUOTED
  {
    hide IsSpace, TrimLeft, TrimRight;
    var text := "- " + QUOTED;
    SpacesBefore(6, text);
    assert Spaces(6) == INDENT;
    Unspaced(text);
  }

  lemma Unspaced(text: string)
    requires text != "" && text[0] == '-' && text[|text| - 1] == '"'
    ensures TrimLeft(text) == text && TrimRight(text) == text
  {
  }

  function Spaces(n: nat): string {
    seq(n, _ => ' ')
  }

  lemma {:induction false} SpacesBefore(n: nat, text: string)
    ensures TrimLeft(Spaces(n) + text) == TrimLeft(text)
  {
    if n == 0 {
      assert Spaces(0) + text == text;
    } else {
      assert (Spaces(n) + text)[1..] == Spaces(n - 1) + text;
      SpacesBefore(n - 1, text);
    }
  }

  /** An address line cannot stand in a hosts block. */
  lemma AddressItem(line: string)
    requires IsAddress(line)
    ensures ItemOf(line) == Unsupported
  {
    hide IsSpace, TrimLeft, TrimRight, TrimSpace, CutLeft, CutRight, IsAddress;
    AddressText(line);
  }

  /** Such a line is indented, and its text begins with the key. */
  lemma AddressText(line: string)
    requires IsAddress(line)
    ensures INDENT <= line && TrimSpace(line) != "" && TrimSpace(line)[0] == 'L'
  {
    hide IsSpace, TrimLeft, TrimRight;
    var rest := line[|INDENT|..];
    assert line[..|INDENT|] == INDENT && line == Spaces(6) + rest && rest[0] == 'L';
    SpacesBefore(6, rest);
    BeginsWithL(rest);
  }

  lemma BeginsWithL(s: string)
    requires s != "" && s[0] == 'L'
    ensures TrimLeft(s) == s && TrimRight(s) != "" && TrimRight(s)[0] == 'L'
  {
    KeepsFirst(s);
  }

  lemma {:induction false} KeepsFirst(s: string)
    requires s != "" && !IsSpace(s[0])
    ensures TrimRight(s) != "" && TrimRight(s)[0] == s[0]
  {
    if |s| > 1 && IsSpace(s[|s| - 1]) { KeepsFirst(s[..|s| - 1]); }
  }
}
