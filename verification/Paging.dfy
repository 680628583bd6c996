/** Browsing a snapshot directory page by page. */
module Paging {
  import opened Decimal
  import opened Wrappers

  const DEFAULT_LIMIT := 200
  const MAX_LIMIT := 1000
  const WARNING_SAMPLES := 10

  /** One line of a listing: blank; parsed; parsed only by the fallback, so that its type is unknown; or
      neither. */
  datatype Line = Blank | Parsed(name: string) | Degraded(name: string) | Invalid

  datatype Item = Item(name: string, verified: bool)

  function Usable(lines: seq<Line>): (items: seq<Item>)
    ensures |items| <= |lines|
  {
    if lines == [] then []
    else
      var before, last := Usable(lines[..|lines| - 1]), lines[|lines| - 1];
      match last
      case Parsed(name) => before + [Item(name, true)]
      case Degraded(name) => before + [Item(name, false)]
      case _ => before
  }

  /** What one more line adds. */
  function Added(line: Line): seq<Item> {
    match line
    case Parsed(name) => [Item(name, true)]
    case Degraded(name) => [Item(name, false)]
    case _ => []
  }

  /** Lines that could not be parsed at all. */
  function Skipped(lines: seq<Line>): nat {
    if lines == [] then 0
    else Skipped(lines[..|lines| - 1]) + if lines[|lines| - 1].Invalid? then 1 else 0
  }

  lemma UsableAppend(lines: seq<Line>, line: Line)
    ensures Usable(lines + [line]) == Usable(lines) + Added(line)
    ensures Added(line) == [] ==> Usable(lines + [line]) == Usable(lines)
    ensures Skipped(lines + [line]) == Skipped(lines) + if line.Invalid? then 1 else 0
  {
    assert (lines + [line])[..|lines|] == lines;
  }

  lemma PageAppend(items: seq<Item>, item: Item, offset: nat, limit: nat)
    ensures Page(items + [item], offset, limit) ==
              if offset <= |items| < offset + limit then Page(items, offset, limit) + [item]
              else Page(items, offset, limit)
  {
    var more := items + [item];
    if |items| < offset {
      assert more[|more|..] == [] == items[|items|..];
    } else if |items| < offset + limit {
      assert more[offset..|more|] == items[offset..] + [item];
    } else {
      assert more[offset..offset + limit] == items[offset..offset + limit];
    }
  }

  lemma PageLength(items: seq<Item>, offset: nat, limit: nat)
    ensures |Page(items, offset, limit)| == Least(offset + limit, |items|) - Least(offset, |items|)
  {
  }

  /** A page goes on where the pages before it stopped. */
  lemma PageContinues(items: seq<Item>, offset: nat, limit: nat)
    requires limit > 0
    ensures items[..Least(offset, |items|)] + Page(items, offset, limit) == items[..Least(offset + limit, |items|)]
    ensures |items| > offset ==> Page(items, offset, limit) != []
    ensures |items| >= offset + limit ==> |Page(items, offset, limit)| == limit
  {
  }

  /** The page limit really used. */
  function Limit(requested: int): (limit: nat)
    ensures 1 <= limit <= MAX_LIMIT
  {
    if requested <= 0 then DEFAULT_LIMIT else if requested > MAX_LIMIT then MAX_LIMIT else requested
  }

  function Least(a: nat, b: nat): nat {
    if a < b then a else b
  }

  /** The items from `offset` on, at most `limit` of them. */
  function Page(items: seq<Item>, offset: nat, limit: nat): seq<Item> {
    items[Least(offset, |items|)..Least(offset + limit, |items|)]
  }

  function CursorOffset(cursor: string): Option<nat> {
    if cursor == "" then Some(0) else Parse(cursor)
  }

  class Collector {
    const offset: nat
    const limit: nat
    var seen: nat
    var linesSeen: nat
    var entries: seq<Item>
    var hasMore: bool
    var skippedInvalid: nat
    var warnings: seq<nat>
    ghost var lines: seq<Line>  // consumed so far

    ghost predicate Valid()
      reads this
    {
      var items := Usable(lines);
      && limit > 0 && linesSeen == |lines|
      && seen == Least(|items|, offset + limit)
      && entries == Page(items, offset, limit)
      && (hasMore <==> |items| > offset + limit)
      && skippedInvalid == Skipped(lines) && |warnings| <= WARNING_SAMPLES
    }

    constructor (offset: nat, limit: nat)
      requires limit > 0
      ensures Valid() && lines == [] && this.offset == offset && this.limit == limit
    {
      this.offset, this.limit := offset, limit;
      seen, linesSeen, entries, hasMore, skippedInvalid, warnings, lines := 0, 0, [], false, 0, [], [];
    }

    method RecordWarning()
      modifies `warnings
      ensures warnings == if |old(warnings)| >= WARNING_SAMPLES then old(warnings) else old(warnings) + [linesSeen]
    {
      if |warnings| >= WARNING_SAMPLES { return; }
      warnings := warnings + [linesSeen];
    }

    /** `consume`; false asks for the listing to be stopped. */
    method Consume(line: Line) returns (more: bool)
      requires Valid()
      modifies this
      ensures Valid() && lines == old(lines) + [line]
      ensures (old(hasMore) ==> hasMore) && (more || hasMore)
    {
      hide Usable, Skipped, Page;
      UsableAppend(lines, line);
      PageLength(Usable(lines), offset, limit);
      if line.Parsed? || line.Degraded? { PageAppend(Usable(lines), Added(line)[0], offset, limit); }
      lines := lines + [line];
      linesSeen := linesSeen + 1;
      if line.Blank? { return true; }
      if line.Degraded? { RecordWarning(); }
      if line.Invalid? {
        skippedInvalid := skippedInvalid + 1;
        RecordWarning();
        return true;
      }
      if seen < offset {
        seen := seen + 1;
        return true;
      }
      if |entries| >= limit {
        hasMore := true;
        return false;
      }
      seen := seen + 1;
      entries := entries + [Item(line.name, line.Parsed?)];
      return true;
    }

    function NextCursor(): string
      reads this
    {
      if hasMore then Numeral(offset + |entries|) else ""
    }
  }

  /** One browse request over a listing.  Once the collector has asked for it the listing is stopped, but up
      to `late` more lines may still come through. */
  method FetchPage(listing: seq<Line>, requested: int, cursor: string, late: nat)
    returns (page: Option<seq<Item>>, next: string)
    ensures page.None? <==> CursorOffset(cursor).None?
    ensures page.Some? ==>
              var offset, limit, items := CursorOffset(cursor).value, Limit(requested), Usable(listing);
              && page.value == Page(items, offset, limit)
              && next == if |items| > offset + limit then Numeral(offset + limit) else ""
  {
    hide Usable, Page, Skipped, Limit, Numeral;
    var offset := CursorOffset(cursor);
    if offset.None? { return None, ""; }
    var collector := new Collector(offset.value, Limit(requested));
    var stopping, k := 0, 0;
    while k < |listing| && stopping <= late
      invariant k <= |listing| && collector.Valid() && collector.lines == listing[..k]
      invariant fresh(collector)
      invariant stopping > 0 ==> collector.hasMore
      invariant k < |listing| && stopping > late ==> collector.hasMore
    {
      var more := collector.Consume(listing[k]);
      assert listing[..k + 1] == listing[..k] + [listing[k]];
      k := k + 1;
      if !more { stopping := stopping + 1; }
    }
    ReadEnough(listing, k, collector);
    page, next := Some(collector.entries), collector.NextCursor();
  }

  /** A collector that has read the whole listing, or enough of it, holds the page of the listing. */
  lemma ReadEnough(listing: seq<Line>, k: nat, collector: Collector)
    requires k <= |listing| && collector.Valid() && collector.lines == listing[..k]
    requires k < |listing| ==> collector.hasMore
    ensures collector.entries == Page(Usable(listing), collector.offset, collector.limit)
    ensures collector.hasMore <==> |Usable(listing)| > collector.offset + collector.limit
    ensures collector.hasMore ==> |collector.entries| == collector.limit
  {
    hide Usable, Page;
    RestIsIrrelevant(listing, k, collector.offset, collector.limit);
    PageLength(Usable(listing), collector.offset, collector.limit);
    assert k == |listing| ==> listing[..k] == listing;
  }

  /** Lines after a full page and one more item do not change the page. */
  lemma {:induction false} RestIsIrrelevant(listing: seq<Line>, k: nat, offset: nat, limit: nat)
    requires k <= |listing|
    ensures |Usable(listing)| >= |Usable(listing[..k])|
    ensures |Usable(listing[..k])| > offset + limit ==>
              Page(Usable(listing), offset, limit) == Page(Usable(listing[..k]), offset, limit)
    decreases |listing|
  {
    if k < |listing| {
      assert listing[..|listing| - 1][..k] == listing[..k];
      RestIsIrrelevant(listing[..|listing| - 1], k, offset, limit);
    } else {
      assert listing[..k] == listing;
    }
  }

  function Joined(pages: seq<seq<Item>>): seq<Item> {
    if pages == [] then [] else Joined(pages[..|pages| - 1]) + pages[|pages| - 1]
  }

  /** Pages needed for `n` items: at least one, otherwise the quotient rounded up. */
  function PageCount(n: nat, limit: nat): nat
    requires limit > 0
  {
    if n == 0 then 1 else (n + limit - 1) / limit
  }

  /** A client that follows the cursors from the start: it sees every usable line exactly once and in order,
      never an empty page after the first, and no more pages than needed. */
  method FollowCursors(listing: seq<Line>, requested: int, late: nat) returns (pages: seq<seq<Item>>)
    ensures Joined(pages) == Usable(listing)
    ensures forall i | 0 < i < |pages| :: pages[i] != []
    ensures forall i | 0 <= i < |pages| - 1 :: |pages[i]| == Limit(requested)
    ensures |pages| == PageCount(|Usable(listing)|, Limit(requested))
  {
    hide Usable, Limit, Page, Joined, CursorOffset, Numeral, Items;
    CursorsAreRead();
    ghost var items, limit := Usable(listing), Limit(requested);
    var page, next := FetchPage(listing, requested, "", late);
    pages := [page.value];
    ghost var asked: nat := limit;
    JoinedAppend([], page.value);
    PageContinues(items, 0, limit);
    OneMorePage(0, limit);
    assert [] + pages == pages && items[..0] == [] && Joined([]) == [] by { JoinedEmpty(); }
    while next != ""
      invariant |pages| >= 1 && asked == Items(|pages|, limit)
      invariant Joined(pages) == items[..Least(asked, |items|)]
      invariant forall i | 0 < i < |pages| :: pages[i] != []
      invariant forall i | 0 <= i < |pages| - 1 :: |pages[i]| == limit
      invariant |pages[|pages| - 1]| == limit || next == ""
      invariant next == if |items| > asked then Numeral(asked) else ""
      invariant |pages| > 1 ==> asked - limit < |items|
      decreases |items| - asked
    {
      page, next := FetchPage(listing, requested, next, late);
      JoinedAppend(pages, page.value);
      PageContinues(items, asked, limit);
      OneMorePage(|pages|, limit);
      pages := pages + [page.value];
      asked := asked + limit;
    }
    CountPages(|items|, limit, |pages|);
  }

  lemma CursorsAreRead()
    ensures CursorOffset("") == Some(0)
    ensures forall n: nat :: Numeral(n) != "" && CursorOffset(Numeral(n)) == Some(n)
  {
    hide Numeral, Parse;
    forall n: nat ensures Parse(Numeral(n)) == Some(n) {
      ParseNumeral(n);
    }
  }

  /** The items of full pages. */
  function Items(pages: nat, limit: nat): nat {
    pages * limit
  }

  lemma OneMorePage(pages: nat, limit: nat)
    ensures Items(0, limit) == 0 && Items(pages + 1, limit) == Items(pages, limit) + limit
  {
  }

  lemma CountPages(n: nat, limit: nat, pages: nat)
    requires limit > 0 && pages >= 1 && n <= Items(pages, limit)
    requires pages > 1 ==> Items(pages, limit) - limit < n
    ensures pages == PageCount(n, limit)
  {
    if n > 0 { QuotientIs(n + limit - 1, limit, pages); }
  }

  lemma QuotientIs(n: nat, d: nat, q: nat)
    requires d > 0 && q * d <= n < q * d + d
    ensures n / d == q
  {
    MultiplesOrdered(n / d + 1, q, d);
    MultiplesOrdered(q + 1, n / d, d);
  }

  lemma MultiplesOrdered(a: nat, b: nat, d: nat)
    ensures a <= b ==> a * d <= b * d
  {
  }

  lemma JoinedEmpty()
    ensures Joined([]) == []
  {
  }

  lemma JoinedAppend(pages: seq<seq<Item>>, page: seq<Item>)
    ensures Joined(pages + [page]) == Joined(pages) + page
  {
    assert (pages + [page])[..|pages|] == pages;
  }
}
