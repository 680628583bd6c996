/** The string operations of Go's standard library that the models use. */
module GoText {

  /** `unicode.IsSpace`. */
  predicate IsSpace(c: char) {
    c as int in {0x09, 0x0A, 0x0B, 0x0C, 0x0D, 0x20, 0x85, 0xA0, 0x1680, 0x2028, 0x2029, 0x202F, 0x205F, 0x3000} ||
    0x2000 <= c as int <= 0x200A
  }

  function TrimLeft(s: string): (r: string)
    ensures |r| <= |s| && r == s[|s| - |r|..] && (r != "" ==> !IsSpace(r[0]))
  {
    if s != "" && IsSpace(s[0]) then TrimLeft(s[1..]) else s
  }

  function TrimRight(s: string): (r: string)
    ensures r <= s && (r != "" ==> !IsSpace(r[|r| - 1]))
  {
    if s != "" && IsSpace(s[|s| - 1]) then TrimRight(s[..|s| - 1]) else s
  }

  /** `strings.TrimSpace`. */
  function TrimSpace(s: string): (r: string)
    ensures r != "" ==> !IsSpace(r[0]) && !IsSpace(r[|r| - 1])
  {
    TrimRight(TrimLeft(s))
  }

  /** What has no space at either end is left alone, and nothing else is. */
  lemma TrimSpaceFixed(s: string)
    ensures TrimSpace(s) == s <==> s == "" || (!IsSpace(s[0]) && !IsSpace(s[|s| - 1]))
  {
  }

  lemma TrimSpaceIdempotent(s: string)
    ensures TrimSpace(TrimSpace(s)) == TrimSpace(s)
  {
    hide TrimSpace, IsSpace;
    TrimSpaceFixed(TrimSpace(s));
  }

  /** Trimming brings in no new character. */
  lemma TrimmedPart(s: string, c: char)
    requires c !in s
    ensures c !in TrimSpace(s)
  {
  }

  /** `strings.TrimRight` and `strings.Trim` with a cut set. */
  function CutRight(s: string, cut: string): (r: string)
    ensures r <= s
  {
    if s != "" && s[|s| - 1] in cut then CutRight(s[..|s| - 1], cut) else s
  }

  function CutLeft(s: string, cut: string): (r: string)
    ensures |r| <= |s| && r == s[|s| - |r|..]
  {
    if s != "" && s[0] in cut then CutLeft(s[1..], cut) else s
  }

  /** Nothing is cut from what neither begins nor ends with something of the cut set. */
  lemma NothingCut(s: string, cut: string)
    requires s != "" && s[0] !in cut && s[|s| - 1] !in cut
    ensures CutRight(s, cut) == s && CutLeft(s, cut) == s
  {
  }
}
