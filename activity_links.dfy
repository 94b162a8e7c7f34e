/**
 * The link extractor of the activity scraper: on the activities listing page,
 * the first table that mentions "antique market assessor" supplies the links
 * of the second cell of each of its rows, filtered and de-duplicated by URL.
 */
module ActivityLinks {
  import opened Wrappers
  import opened Text
  import opened Seqs
  import opened Html

  datatype LinkRef = LinkRef(name: string, url: string)

  function UrlOf(l: LinkRef): string {
    l.url
  }

  const TargetMarker := "antique market assessor"

  /** The table's lower-cased text mentions the target marker. */
  predicate IsTarget(t: Table) {
    Contains(ToLower(TableText(t)), TargetMarker)
  }

  /** The index of the first target table at or after `from`. */
  function FirstTargetFrom(tables: seq<Table>, from: nat): (found: Option<nat>)
    requires from <= |tables|
    ensures found.None? <==> forall i :: from <= i < |tables| ==> !IsTarget(tables[i])
    ensures found.Some? ==>
              from <= found.value < |tables| && IsTarget(tables[found.value])
              && forall i :: from <= i < found.value ==> !IsTarget(tables[i])
    decreases |tables| - from
  {
    if from == |tables| then None
    else if IsTarget(tables[from]) then Some(from)
    else FirstTargetFrom(tables, from + 1)
  }

  function FirstTarget(tables: seq<Table>): Option<nat> {
    FirstTargetFrom(tables, 0)
  }

  /**
   * A link that names an activity: it has an href containing "/wiki/" and its
   * stripped text is longer than two characters.
   */
  predicate IsActivityLink(l: Link) {
    l.href.Some? && Contains(l.href.value, "/wiki/") && |Strip(l.text)| > 2
  }

  function LinkRefOf(l: Link, absolute: string -> string): LinkRef
    requires l.href.Some?
  {
    LinkRef(Strip(l.text), absolute(l.href.value))
  }

  /** The activity links among `links`, in order. */
  function LinkRefsOf(links: seq<Link>, absolute: string -> string): seq<LinkRef> {
    if links == [] then []
    else
      var l := links[|links| - 1];
      LinkRefsOf(links[..|links| - 1], absolute)
      + (if IsActivityLink(l) then [LinkRefOf(l, absolute)] else [])
  }

  /** The activity links of a row's second cell; rows with fewer than two cells give none. */
  function RowLinkRefs(row: Row, absolute: string -> string): seq<LinkRef> {
    if |row| >= 2 then LinkRefsOf(row[1].links, absolute) else []
  }

  /** The activity links of all rows, in document order, duplicates included. */
  function Candidates(rows: seq<Row>, absolute: string -> string): seq<LinkRef> {
    if rows == [] then []
    else Candidates(rows[..|rows| - 1], absolute) + RowLinkRefs(rows[|rows| - 1], absolute)
  }

  /** The result of `extract_activity_links` for a fetched listing page. */
  function ActivityLinks(tables: seq<Table>, absolute: string -> string): seq<LinkRef> {
    match FirstTarget(tables)
    case None => []
    case Some(i) => DedupBy(Candidates(tables[i].rows, absolute), UrlOf)
  }

  /** `c` comes from an activity link in the second cell of row `r`. */
  predicate FromSecondCell(rows: seq<Row>, absolute: string -> string, c: LinkRef, r: nat)
  {
    r < |rows| && |rows[r]| >= 2
    && exists l :: 0 <= l < |rows[r][1].links| && IsActivityLink(rows[r][1].links[l])
                   && c == LinkRefOf(rows[r][1].links[l], absolute)
  }

  lemma {:induction false} LinkRefsOrigin(links: seq<Link>, absolute: string -> string, c: LinkRef)
    requires c in LinkRefsOf(links, absolute)
    ensures exists l :: 0 <= l < |links| && IsActivityLink(links[l]) && c == LinkRefOf(links[l], absolute)
  {
    var n := |links| - 1;
    if c in LinkRefsOf(links[..n], absolute) {
      LinkRefsOrigin(links[..n], absolute, c);
      var l :| 0 <= l < n && IsActivityLink(links[..n][l]) && c == LinkRefOf(links[..n][l], absolute);
      assert links[l] == links[..n][l];
    }
  }

  /** Every candidate comes from an activity link in the second cell of some row. */
  lemma {:induction false} CandidateOrigin(rows: seq<Row>, absolute: string -> string, c: LinkRef)
    requires c in Candidates(rows, absolute)
    ensures exists r :: FromSecondCell(rows, absolute, c, r)
  {
    var n := |rows| - 1;
    if c in Candidates(rows[..n], absolute) {
      CandidateOrigin(rows[..n], absolute, c);
      var r: nat :| FromSecondCell(rows[..n], absolute, c, r);
      assert rows[r] == rows[..n][r];
      assert FromSecondCell(rows, absolute, c, r);
    } else {
      LinkRefsOrigin(rows[n][1].links, absolute, c);
      assert FromSecondCell(rows, absolute, c, n);
    }
  }

  /** Every activity link among `links` is taken. */
  lemma {:induction false} LinkRefsComplete(links: seq<Link>, absolute: string -> string, l: nat)
    requires l < |links| && IsActivityLink(links[l])
    ensures LinkRefOf(links[l], absolute) in LinkRefsOf(links, absolute)
  {
    var n := |links| - 1;
    if l < n {
      LinkRefsComplete(links[..n], absolute, l);
      assert links[..n][l] == links[l];
    }
  }

  /** Every activity link in the second cell of a row is a candidate. */
  lemma {:induction false} CandidateComplete(rows: seq<Row>, absolute: string -> string, r: nat, l: nat)
    requires r < |rows| && |rows[r]| >= 2
    requires l < |rows[r][1].links| && IsActivityLink(rows[r][1].links[l])
    ensures LinkRefOf(rows[r][1].links[l], absolute) in Candidates(rows, absolute)
  {
    var n := |rows| - 1;
    if r < n {
      assert rows[..n][r] == rows[r];
      CandidateComplete(rows[..n], absolute, r, l);
    } else {
      LinkRefsComplete(rows[r][1].links, absolute, l);
    }
  }

  /**
   * The extracted links have pairwise distinct URLs; each comes from an
   * activity link in the second cell of a row of the first table that
   * mentions the marker; with no such table there are none.
   */
  lemma ActivityLinksSound(tables: seq<Table>, absolute: string -> string)
    ensures KeysDistinct(ActivityLinks(tables, absolute), UrlOf)
    ensures FirstTarget(tables).None? ==> ActivityLinks(tables, absolute) == []
    ensures forall e :: e in ActivityLinks(tables, absolute) ==>
              FirstTarget(tables).Some?
              && exists r :: FromSecondCell(tables[FirstTarget(tables).value].rows, absolute, e, r)
  {
    if FirstTarget(tables).Some? {
      var rows := tables[FirstTarget(tables).value].rows;
      var cands := Candidates(rows, absolute);
      forall e | e in ActivityLinks(tables, absolute)
        ensures exists r :: FromSecondCell(rows, absolute, e, r)
      {
        var i :| 0 <= i < |DedupBy(cands, UrlOf)| && DedupBy(cands, UrlOf)[i] == e;
        DedupFromInput(cands, UrlOf, i);
        CandidateOrigin(rows, absolute, e);
      }
    }
  }

  /**
   * Every activity link in the second cell of a row of the first table that
   * mentions the marker has its URL among the extracted links.
   */
  lemma {:induction false} ActivityLinksComplete(tables: seq<Table>, absolute: string -> string, r: nat, l: nat)
    requires FirstTarget(tables).Some?
    requires var rows := tables[FirstTarget(tables).value].rows;
             r < |rows| && |rows[r]| >= 2 && l < |rows[r][1].links| && IsActivityLink(rows[r][1].links[l])
    ensures var link := tables[FirstTarget(tables).value].rows[r][1].links[l];
            HasKey(ActivityLinks(tables, absolute), UrlOf, absolute(link.href.value))
  {
    var rows := tables[FirstTarget(tables).value].rows;
    var cands := Candidates(rows, absolute);
    var c := LinkRefOf(rows[r][1].links[l], absolute);
    CandidateComplete(rows, absolute, r, l);
    var i :| 0 <= i < |cands| && cands[i] == c;
    assert UrlOf(cands[i]) == c.url;
    assert HasKey(cands, UrlOf, c.url);
  }

  /** `extract_activity_links` on a fetched listing page. */
  method ExtractActivityLinks(tables: seq<Table>, absolute: string -> string) returns (unique: seq<LinkRef>)
    ensures unique == ActivityLinks(tables, absolute)
  {
    // Find the first table that mentions the marker.
    var t := 0;
    while t < |tables| && !IsTarget(tables[t])
      invariant t <= |tables|
      invariant FirstTarget(tables) == FirstTargetFrom(tables, t)
    {
      t := t + 1;
    }
    if t == |tables| {
      return [];
    }
    var activityLinks := CollectActivityLinks(tables[t].rows, absolute);
    unique := DropRepeatedUrls(activityLinks);
  }

  /** The loop over the rows of the target table, appending each accepted link. */
  method CollectActivityLinks(rows: seq<Row>, absolute: string -> string) returns (activityLinks: seq<LinkRef>)
    ensures activityLinks == Candidates(rows, absolute)
  {
    activityLinks := [];
    var r := 0;
    while r < |rows|
      invariant r <= |rows|
      invariant activityLinks == Candidates(rows[..r], absolute)
    {
      assert rows[..r + 1][..r] == rows[..r];
      var cells := rows[r];
      if |cells| >= 2 {
        var found := SecondCellLinks(cells[1].links, absolute);
        activityLinks := activityLinks + found;
      }
      r := r + 1;
    }
    assert rows[..r] == rows;
  }

  /** The inner loop over the links of a row's second cell. */
  method SecondCellLinks(links: seq<Link>, absolute: string -> string) returns (found: seq<LinkRef>)
    ensures found == LinkRefsOf(links, absolute)
  {
    found := [];
    var l := 0;
    while l < |links|
      invariant l <= |links|
      invariant found == LinkRefsOf(links[..l], absolute)
    {
      assert links[..l + 1][..l] == links[..l];
      var link := links[l];
      if link.href.Some? && Contains(link.href.value, "/wiki/") {
        var activityName := Strip(link.text);
        if activityName != "" && |activityName| > 2 {
          found := found + [LinkRef(activityName, absolute(link.href.value))];
        }
      }
      l := l + 1;
    }
    assert links[..l] == links;
  }

  /** The loop that keeps the first link of each URL, with a set of URLs seen. */
  method DropRepeatedUrls(activityLinks: seq<LinkRef>) returns (unique: seq<LinkRef>)
    ensures unique == DedupBy(activityLinks, UrlOf)
  {
    unique := [];
    var seenUrls: set<string> := {};
    var i := 0;
    while i < |activityLinks|
      invariant i <= |activityLinks|
      invariant unique == DedupBy(activityLinks[..i], UrlOf)
      invariant forall u :: u in seenUrls <==> HasKey(unique, UrlOf, u)
    {
      assert activityLinks[..i + 1][..i] == activityLinks[..i];
      var link := activityLinks[i];
      if link.url !in seenUrls {
        seenUrls := seenUrls + {link.url};
        assert UrlOf(link) == link.url;
        unique := unique + [link];
        assert UrlOf(unique[|unique| - 1]) == link.url;
      }
      i := i + 1;
    }
    assert activityLinks[..i] == activityLinks;
  }
}
