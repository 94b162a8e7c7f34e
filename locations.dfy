/**
 * The locations script: find the "Regions" heading of the world page, collect
 * the region links of its section, drop blacklisted and repeated links, then
 * collect the list items of each region page's "Locations" section and drop
 * repeated locations.
 *
 * A parsed page is its elements flattened in document order: headings with
 * their level, anchors with their optional `href` and their text, lists with
 * the texts of their items, and everything else.
 */
module Locations {
  import opened Wrappers
  import opened Text
  import opened Seqs

  datatype Node =
    | Heading(level: nat, text: string)
    | Anchor(href: Option<string>, text: string)
    | ListNode(items: seq<string>)
    | Other

  datatype RegionLink = RegionLink(region: string, link: string)

  datatype LocationRecord = LocationRecord(region: string, location: string)

  /** The three ways the script stops with an exception instead of a frame. */
  datatype ScriptError =
    | NoRegionsHeading   // `regions_header.name` on `None`
    | NoRegionLinks      // renaming the columns of an empty frame
    | NoLocations        // `drop_duplicates(subset=['location'])` on an empty frame

  const WikiBase := "https://wiki.walkscape.app"
  const RegionsTitle := "Regions"
  const LocationsTitle := "Locations"

  function LinkOf(r: RegionLink): string { r.link }
  function LocationOf(r: LocationRecord): string { r.location }

  // ---------------------------------------------------------------------------
  // Headings and sections

  /** An `h1`..`h4` element whose stripped text is exactly `title`. */
  predicate IsTitled(n: Node, title: string) {
    n.Heading? && 1 <= n.level <= 4 && Strip(n.text) == title
  }

  /** The first titled heading at or after `from`. */
  function FirstTitledFrom(nodes: seq<Node>, title: string, from: nat): (found: Option<nat>)
    requires from <= |nodes|
    ensures found.Some? ==> from <= found.value < |nodes| && IsTitled(nodes[found.value], title)
    ensures forall j :: from <= j < |nodes| && (found.None? || j < found.value) ==> !IsTitled(nodes[j], title)
    decreases |nodes| - from
  {
    if from == |nodes| then None
    else if IsTitled(nodes[from], title) then Some(from)
    else FirstTitledFrom(nodes, title, from + 1)
  }

  function FirstTitled(nodes: seq<Node>, title: string): Option<nat> {
    FirstTitledFrom(nodes, title, 0)
  }

  /** The `for header in soup.find_all([...]): ... break` search. */
  method FindHeading(nodes: seq<Node>, title: string) returns (found: Option<nat>)
    ensures found == FirstTitled(nodes, title)
  {
    var i := 0;
    while i < |nodes|
      invariant i <= |nodes|
      invariant forall j :: 0 <= j < i ==> !IsTitled(nodes[j], title)
    {
      var node := nodes[i];
      if node.Heading? && 1 <= node.level <= 4 && Strip(node.text) == title {
        return Some(i);
      }
      i := i + 1;
    }
    return None;
  }

  /**
   * Where a section walk ends: at a heading of level `level` or shallower,
   * except a heading equal to `passes` (the Regions walk's
   * `current != regions_header` test, with value equality standing in for
   * bs4's tag equality).
   */
  datatype Bound = Bound(level: nat, passes: Option<Node>)

  /** A heading of the same or a shallower level ends a section, unless the bound lets it pass. */
  predicate IsStop(n: Node, bound: Bound) {
    n.Heading? && n.level <= bound.level && Some(n) != bound.passes
  }

  /** The index of the first section-ending heading at or after `from`, or the end of the page. */
  function SectionEnd(nodes: seq<Node>, from: nat, bound: Bound): (end: nat)
    requires from <= |nodes|
    ensures from <= end <= |nodes|
    ensures forall j :: from <= j < end ==> !IsStop(nodes[j], bound)
    ensures end < |nodes| ==> IsStop(nodes[end], bound)
    decreases |nodes| - from
  {
    if from == |nodes| || IsStop(nodes[from], bound) then from
    else SectionEnd(nodes, from + 1, bound)
  }

  /**
   * The walk from `from` up to the first heading that ends the section: the
   * contributions `f(n)` of the elements passed, in document order. Deeper
   * headings do not stop it.
   */
  function Walk<U>(nodes: seq<Node>, from: nat, bound: Bound, f: Node -> seq<U>): seq<U>
    requires from <= |nodes|
    decreases |nodes| - from
  {
    if from == |nodes| || IsStop(nodes[from], bound) then []
    else f(nodes[from]) + Walk(nodes, from + 1, bound, f)
  }

  /** A walk over an element that does not stop it collects that element's contribution first. */
  lemma WalkStep<U>(nodes: seq<Node>, from: nat, bound: Bound, f: Node -> seq<U>, done: seq<U>)
    requires from < |nodes| && !IsStop(nodes[from], bound)
    ensures done + Walk(nodes, from, bound, f) == (done + f(nodes[from])) + Walk(nodes, from + 1, bound, f)
  {
  }

  /** Everything a walk collects comes from an element strictly before the section end. */
  lemma {:induction false} WalkOrigin<U>(nodes: seq<Node>, from: nat, bound: Bound, f: Node -> seq<U>, y: U)
    requires from <= |nodes|
    requires y in Walk(nodes, from, bound, f)
    ensures exists j :: from <= j < SectionEnd(nodes, from, bound) && y in f(nodes[j])
    decreases |nodes| - from
  {
    if y !in f(nodes[from]) {
      WalkOrigin(nodes, from + 1, bound, f, y);
    }
  }

  /** Everything an element strictly before the section end contributes is collected by the walk. */
  lemma {:induction false} WalkComplete<U>(nodes: seq<Node>, from: nat, bound: Bound, f: Node -> seq<U>, j: nat, y: U)
    requires from <= |nodes|
    requires from <= j < SectionEnd(nodes, from, bound) && y in f(nodes[j])
    ensures y in Walk(nodes, from, bound, f)
    decreases |nodes| - from
  {
    if j > from {
      WalkComplete(nodes, from + 1, bound, f, j, y);
    }
  }

  // ---------------------------------------------------------------------------
  // Region links

  /** A site-relative `href` gets the wiki's origin in front; any other is kept. */
  function Absolutize(href: string): (url: string)
    ensures !StartsWith(url, "/")
    ensures url == href || (StartsWith(href, "/") && url == WikiBase + href)
    ensures url[|url| - |href|..] == href
  {
    if StartsWith(href, "/") then
      assert (WikiBase + href)[0] == 'h';
      WikiBase + href
    else href
  }

  /** The link an element adds: only an anchor with an `href` adds one. */
  function AnchorLink(n: Node): seq<RegionLink> {
    if n.Anchor? && n.href.Some? then [RegionLink(n.text, Absolutize(n.href.value))] else []
  }

  /**
   * The Regions walk ends at a heading of its heading's level or shallower,
   * but passes over a heading equal to the one it started from.
   */
  function RegionsBound(nodes: seq<Node>, h: nat): Bound
    requires h < |nodes| && nodes[h].Heading?
  {
    Bound(nodes[h].level, Some(nodes[h]))
  }

  /** The links of the section under the regions heading `h`. */
  function RegionLinks(nodes: seq<Node>, h: nat): seq<RegionLink>
    requires h < |nodes| && nodes[h].Heading?
  {
    Walk(nodes, h + 1, RegionsBound(nodes, h), AnchorLink)
  }

  /** The `while current:` walk from the regions heading. */
  method CollectRegionLinks(nodes: seq<Node>, h: nat) returns (regionsLinks: seq<RegionLink>)
    requires h < |nodes| && nodes[h].Heading?
    ensures regionsLinks == RegionLinks(nodes, h)
  {
    var regionsHeader := nodes[h];
    var headerLevel := regionsHeader.level;
    ghost var bound := RegionsBound(nodes, h);
    regionsLinks := [];
    var current := h + 1;
    while current < |nodes|
      invariant h + 1 <= current <= |nodes|
      invariant regionsLinks + Walk(nodes, current, bound, AnchorLink) == RegionLinks(nodes, h)
    {
      var node := nodes[current];
      if node.Heading? && node.level <= headerLevel {
        if node != regionsHeader {
          assert Walk(nodes, current, bound, AnchorLink) == [] by {
            assert IsStop(node, bound);
          }
          break;
        }
      }
      var found := AnchorStep(node);
      assert regionsLinks + found + Walk(nodes, current + 1, bound, AnchorLink) == RegionLinks(nodes, h) by {
        assert !IsStop(node, bound);
        WalkStep(nodes, current, bound, AnchorLink, regionsLinks);
      }
      regionsLinks := regionsLinks + found;
      current := current + 1;
    }
  }

  /** `if current.name == 'a' and current.has_attr('href')`: the link one element adds. */
  method AnchorStep(node: Node) returns (found: seq<RegionLink>)
    ensures found == AnchorLink(node)
  {
    found := [];
    if node.Anchor? && node.href.Some? {
      var href := node.href.value;
      if StartsWith(href, "/") {
        href := WikiBase + href;
      }
      found := [RegionLink(node.text, href)];
    }
  }

  /** Every collected link comes from an anchor inside the section, absolutised. */
  lemma RegionLinksInSection(nodes: seq<Node>, h: nat, l: RegionLink)
    requires h < |nodes| && nodes[h].Heading?
    requires l in RegionLinks(nodes, h)
    ensures exists j :: h < j < SectionEnd(nodes, h + 1, RegionsBound(nodes, h))
              && nodes[j].Anchor? && nodes[j].href.Some?
              && l == RegionLink(nodes[j].text, Absolutize(nodes[j].href.value))
  {
    WalkOrigin(nodes, h + 1, RegionsBound(nodes, h), AnchorLink, l);
  }

  /** An anchor with an `href` before the section end is collected by the walk, absolutised. */
  lemma {:induction false} AnchorWalked(nodes: seq<Node>, from: nat, bound: Bound, j: nat)
    requires from <= |nodes| && from <= j < SectionEnd(nodes, from, bound)
    requires nodes[j].Anchor? && nodes[j].href.Some?
    ensures RegionLink(nodes[j].text, Absolutize(nodes[j].href.value)) in Walk(nodes, from, bound, AnchorLink)
  {
    var n := nodes[j];
    assert RegionLink(n.text, Absolutize(n.href.value)) in AnchorLink(n);
    WalkComplete(nodes, from, bound, AnchorLink, j, RegionLink(n.text, Absolutize(n.href.value)));
  }

  /** Every anchor with an `href` inside the section, under deeper headings too, is collected, absolutised. */
  lemma {:induction false} RegionLinksComplete(nodes: seq<Node>, h: nat, j: nat)
    requires h < |nodes| && nodes[h].Heading?
    requires h < j < SectionEnd(nodes, h + 1, RegionsBound(nodes, h))
    requires nodes[j].Anchor? && nodes[j].href.Some?
    ensures RegionLink(nodes[j].text, Absolutize(nodes[j].href.value)) in RegionLinks(nodes, h)
  {
    var bound := RegionsBound(nodes, h);
    var l := RegionLink(nodes[j].text, Absolutize(nodes[j].href.value));
    assert l in Walk(nodes, h + 1, bound, AnchorLink) by {
      AnchorWalked(nodes, h + 1, bound, j);
    }
    assert RegionLinks(nodes, h) == Walk(nodes, h + 1, bound, AnchorLink);
  }

  /**
   * A second heading equal to the Regions heading does not end the walk, while
   * a different heading of the same level does.
   */
  lemma RepeatedRegionsHeadingPassed()
    ensures RegionLinks([Heading(2, "Regions"), Anchor(Some("/a"), "A"), Heading(2, "Regions"), Anchor(Some("/b"), "B")], 0)
              == [RegionLink("A", WikiBase + "/a"), RegionLink("B", WikiBase + "/b")]
    ensures RegionLinks([Heading(2, "Regions"), Anchor(Some("/a"), "A"), Heading(2, "Places"), Anchor(Some("/b"), "B")], 0)
              == [RegionLink("A", WikiBase + "/a")]
  {
    assert StartsWith("/a", "/") && StartsWith("/b", "/");
    assert Heading(2, "Places") != Heading(2, "Regions") by {
      assert "Places"[0] != "Regions"[0];
    }
  }

  // ---------------------------------------------------------------------------
  // Blacklist

  const RemoveItems: seq<string> :=
    ["Coat_of_Arms.svg", "Category:", "Farming", "Activities", "Woodcutting", "Fishing",
     "Mining", "Crafting", "Gems", "Walkscape", "WalkScape", "index"]

  /** One pattern character against one text character: `.` is any character but a newline. */
  predicate CharMatches(p: char, c: char) {
    if p == '.' then c != '\n' else p == c
  }

  predicate MatchesPrefix(s: string, pattern: string) {
    |pattern| <= |s| && forall k :: 0 <= k < |pattern| ==> CharMatches(pattern[k], s[k])
  }

  /** The regular-expression search of `str.contains` for patterns whose only metacharacter is `.`. */
  predicate PatternSearch(s: string, pattern: string) {
    MatchesPrefix(s, pattern) || (s != [] && PatternSearch(s[1..], pattern))
  }

  /** Without a `.`, the pattern search is a plain substring test. */
  lemma {:induction false} PatternSearchPlain(s: string, pattern: string)
    requires '.' !in pattern
    ensures PatternSearch(s, pattern) <==> Contains(s, pattern)
  {
    assert MatchesPrefix(s, pattern) <==> StartsWith(s, pattern) by {
      if MatchesPrefix(s, pattern) {
        assert s[..|pattern|] == pattern;
      }
    }
    if s != [] {
      PatternSearchPlain(s[1..], pattern);
    }
  }

  /** The `.` of a pattern matches the character at its place. */
  lemma DotMatchesAnyChar(pre: string, c: char, post: string)
    requires c != '\n' && '.' !in pre && '.' !in post
    ensures PatternSearch(pre + [c] + post, pre + "." + post)
  {
    assert MatchesPrefix(pre + [c] + post, pre + "." + post);
  }

  /** The boolean-mask filter `df[~df['link'].str.contains(item)]`. */
  function Without(links: seq<RegionLink>, item: string): seq<RegionLink> {
    if links == [] then []
    else
      var last := links[|links| - 1];
      var kept := Without(links[..|links| - 1], item);
      if PatternSearch(last.link, item) then kept else kept + [last]
  }

  /** The blacklist loop: one filter per item, in order. */
  function WithoutAll(links: seq<RegionLink>, items: seq<string>): seq<RegionLink> {
    if items == [] then links
    else Without(WithoutAll(links, items[..|items| - 1]), items[|items| - 1])
  }

  /** Some item of `items` occurs in `link`. */
  predicate Blacklisted(link: string, items: seq<string>) {
    exists i :: 0 <= i < |items| && PatternSearch(link, items[i])
  }

  /** Reference definition: a single pass keeping the links that match no item. */
  function Keep(links: seq<RegionLink>, items: seq<string>): seq<RegionLink> {
    if links == [] then []
    else
      var last := links[|links| - 1];
      var kept := Keep(links[..|links| - 1], items);
      if Blacklisted(last.link, items) then kept else kept + [last]
  }

  /** `Keep` keeps exactly the links that match no item. */
  lemma {:induction false} KeepMembers(links: seq<RegionLink>, items: seq<string>)
    ensures |Keep(links, items)| <= |links|
    ensures forall l :: l in Keep(links, items) <==> l in links && !Blacklisted(l.link, items)
  {
    if links != [] {
      var prefix, last := links[..|links| - 1], links[|links| - 1];
      KeepMembers(prefix, items);
      assert links == prefix + [last];
    }
  }

  /** With no items nothing is removed. */
  lemma {:induction false} KeepNothing(links: seq<RegionLink>)
    ensures Keep(links, []) == links
  {
    if links != [] {
      var prefix, last := links[..|links| - 1], links[|links| - 1];
      KeepNothing(prefix);
      assert !Blacklisted(last.link, []);
      assert links == prefix + [last];
    }
  }

  /** Filtering a sequence with one more element at its end. */
  lemma WithoutSnoc(links: seq<RegionLink>, l: RegionLink, item: string)
    ensures Without(links + [l], item) == Without(links, item) + if PatternSearch(l.link, item) then [] else [l]
  {
    assert (links + [l])[..|links + [l]| - 1] == links;
  }

  /** A link is blacklisted by some items and one more exactly when it is by the first ones or by the last. */
  lemma BlacklistedSnoc(link: string, items: seq<string>)
    requires items != []
    ensures Blacklisted(link, items)
            <==> Blacklisted(link, items[..|items| - 1]) || PatternSearch(link, items[|items| - 1])
  {
    var init := items[..|items| - 1];
    if Blacklisted(link, items) {
      var i :| 0 <= i < |items| && PatternSearch(link, items[i]);
      if i < |init| {
        assert init[i] == items[i];
      }
    }
    if Blacklisted(link, init) {
      var i :| 0 <= i < |init| && PatternSearch(link, init[i]);
      assert items[i] == init[i];
    }
  }

  /** Filtering the survivors of some items by one more item is filtering by all of them. */
  lemma {:induction false} WithoutKeep(links: seq<RegionLink>, items: seq<string>)
    requires items != []
    ensures Without(Keep(links, items[..|items| - 1]), items[|items| - 1]) == Keep(links, items)
  {
    var init, item := items[..|items| - 1], items[|items| - 1];
    if links != [] {
      var prefix, last := links[..|links| - 1], links[|links| - 1];
      WithoutKeep(prefix, items);
      BlacklistedSnoc(last.link, items);
      if !Blacklisted(last.link, init) {
        WithoutSnoc(Keep(prefix, init), last, item);
      }
    }
  }

  /** The per-item filter loop removes exactly the links that match some item, keeping order. */
  lemma {:induction false} WithoutAllIsKeep(links: seq<RegionLink>, items: seq<string>)
    ensures WithoutAll(links, items) == Keep(links, items)
  {
    if items == [] {
      KeepNothing(links);
    } else {
      WithoutAllIsKeep(links, items[..|items| - 1]);
      WithoutKeep(links, items);
    }
  }

  /** `for item in remove_items: df_links = df_links[~...]`. */
  method ApplyBlacklist(links: seq<RegionLink>) returns (dfLinks: seq<RegionLink>)
    ensures dfLinks == Keep(links, RemoveItems)
  {
    dfLinks := links;
    var i := 0;
    while i < |RemoveItems|
      invariant i <= |RemoveItems|
      invariant dfLinks == WithoutAll(links, RemoveItems[..i])
    {
      assert RemoveItems[..i + 1][..i] == RemoveItems[..i];
      dfLinks := Without(dfLinks, RemoveItems[i]);
      i := i + 1;
    }
    assert RemoveItems[..i] == RemoveItems;
    WithoutAllIsKeep(links, RemoveItems);
  }

  /** The links whose region pages are visited: blacklist first, then keep-first dedup by link. */
  function RetainedLinks(found: seq<RegionLink>): seq<RegionLink> {
    DedupBy(Keep(found, RemoveItems), LinkOf)
  }

  /** The retained links are distinct, collected and match no blacklist item. */
  lemma RetainedLinksSound(found: seq<RegionLink>)
    ensures KeysDistinct(RetainedLinks(found), LinkOf)
    ensures forall l :: l in RetainedLinks(found) ==> l in found && !Blacklisted(l.link, RemoveItems)
  {
    var kept := Keep(found, RemoveItems);
    KeepMembers(found, RemoveItems);
    forall l | l in RetainedLinks(found)
      ensures l in found && !Blacklisted(l.link, RemoveItems)
    {
      var i :| 0 <= i < |RetainedLinks(found)| && RetainedLinks(found)[i] == l;
      DedupFromInput(kept, LinkOf, i);
    }
  }

  // ---------------------------------------------------------------------------
  // Locations of one region page

  /** What one list item adds: its stripped text, if that is not empty. */
  function ItemRecord(region: string, item: string): seq<LocationRecord> {
    if Strip(item) != "" then [LocationRecord(region, Strip(item))] else []
  }

  function ItemRecordsTo(region: string): string -> seq<LocationRecord> {
    item => ItemRecord(region, item)
  }

  /** What one element adds: the records of its items if it is a list. */
  function NodeRecords(region: string, n: Node): seq<LocationRecord> {
    if n.ListNode? then Flatten(n.items, ItemRecordsTo(region)) else []
  }

  function NodeRecordsTo(region: string): Node -> seq<LocationRecord> {
    n => NodeRecords(region, n)
  }

  /** The Locations walk ends at any heading of its heading's level or shallower. */
  function LocationsBound(page: seq<Node>, h: nat): Bound
    requires h < |page| && page[h].Heading?
  {
    Bound(page[h].level, None)
  }

  /** The records of the section under heading `h`. */
  function SectionRecords(page: seq<Node>, h: nat, region: string): seq<LocationRecord>
    requires h < |page| && page[h].Heading?
  {
    Walk(page, h + 1, LocationsBound(page, h), NodeRecordsTo(region))
  }

  /** The records of a region page: its "Locations" section's list items, or nothing without one. */
  function RegionLocations(page: seq<Node>, region: string): seq<LocationRecord> {
    match FirstTitled(page, LocationsTitle)
    case None => []
    case Some(h) => SectionRecords(page, h, region)
  }

  /** `for li in current.find_all('li')`: the records of one list. */
  method ListRecords(items: seq<string>, region: string) returns (records: seq<LocationRecord>)
    ensures records == Flatten(items, ItemRecordsTo(region))
  {
    records := [];
    var k := 0;
    while k < |items|
      invariant k <= |items|
      invariant records == Flatten(items[..k], ItemRecordsTo(region))
    {
      FlattenStep(items, k, ItemRecordsTo(region));
      var locationText := Strip(items[k]);
      if locationText != "" {
        records := records + [LocationRecord(region, locationText)];
      }
      k := k + 1;
    }
    assert items[..k] == items;
  }

  /** `if current.name in ['ul', 'ol']`: the records of one element of the walk. */
  method ElementRecords(node: Node, region: string) returns (records: seq<LocationRecord>)
    ensures records == NodeRecords(region, node)
  {
    records := [];
    if node.ListNode? {
      records := ListRecords(node.items, region);
    }
  }

  /** The `while current:` walk from a "Locations" heading. */
  method CollectLocations(page: seq<Node>, h: nat, region: string) returns (locationList: seq<LocationRecord>)
    requires h < |page| && page[h].Heading?
    ensures locationList == SectionRecords(page, h, region)
  {
    var headerLevel := page[h].level;
    locationList := [];
    var current := h + 1;
    while current < |page|
      invariant h + 1 <= current <= |page|
      invariant locationList + Walk(page, current, LocationsBound(page, h), NodeRecordsTo(region)) == SectionRecords(page, h, region)
    {
      var node := page[current];
      if node.Heading? && node.level <= headerLevel {
        break;
      }
      var records := ElementRecords(node, region);
      WalkStep(page, current, LocationsBound(page, h), NodeRecordsTo(region), locationList);
      locationList := locationList + records;
      current := current + 1;
    }
  }

  /** One pass of the region loop: fetch the page, find its heading, collect its locations. */
  method VisitRegion(row: RegionLink, fetch: string -> Option<seq<Node>>) returns (locationList: seq<LocationRecord>)
    ensures locationList == RegionRecords(fetch, row)
  {
    var page := fetch(row.link);
    if page.None? {
      return [];
    }
    var locationsHeader := FindHeading(page.value, LocationsTitle);
    if locationsHeader.None? {
      return [];
    }
    locationList := CollectLocations(page.value, locationsHeader.value, row.region);
  }

  /** Every record an element adds holds the stripped, non-empty text of one of its list items. */
  lemma NodeRecordsSound(region: string, n: Node, r: LocationRecord)
    requires r in NodeRecords(region, n)
    ensures r.region == region && r.location != "" && NoOuterSpace(r.location)
    ensures n.ListNode? && exists k :: 0 <= k < |n.items| && r.location == Strip(n.items[k])
  {
    FlattenOrigin(n.items, ItemRecordsTo(region), r);
    var k :| 0 <= k < |n.items| && r in ItemRecord(region, n.items[k]);
  }

  /** Every record of a region page names that region and holds a stripped, non-empty item text of its section. */
  lemma RegionLocationsSound(page: seq<Node>, region: string, r: LocationRecord)
    requires r in RegionLocations(page, region)
    ensures r.region == region && r.location != "" && NoOuterSpace(r.location)
    ensures FirstTitled(page, LocationsTitle).Some?
    ensures var h := FirstTitled(page, LocationsTitle).value;
            exists j :: h < j < SectionEnd(page, h + 1, LocationsBound(page, h)) && r in NodeRecords(region, page[j])
  {
    assert FirstTitled(page, LocationsTitle).Some?;
    var h := FirstTitled(page, LocationsTitle).value;
    assert r in SectionRecords(page, h, region);
    WalkOrigin(page, h + 1, LocationsBound(page, h), NodeRecordsTo(region), r);
    var j :| h + 1 <= j < SectionEnd(page, h + 1, LocationsBound(page, h)) && r in NodeRecordsTo(region)(page[j]);
    NodeRecordsSound(region, page[j], r);
  }

  /** Every list item inside the "Locations" section with non-empty stripped text gives a record. */
  lemma {:induction false} RegionLocationsComplete(page: seq<Node>, region: string, j: nat, k: nat)
    requires FirstTitled(page, LocationsTitle).Some?
    requires var h := FirstTitled(page, LocationsTitle).value;
             h < j < SectionEnd(page, h + 1, LocationsBound(page, h))
    requires page[j].ListNode? && k < |page[j].items| && Strip(page[j].items[k]) != ""
    ensures LocationRecord(region, Strip(page[j].items[k])) in RegionLocations(page, region)
  {
    var h := FirstTitled(page, LocationsTitle).value;
    var r := LocationRecord(region, Strip(page[j].items[k]));
    assert r in ItemRecordsTo(region)(page[j].items[k]);
    FlattenComplete(page[j].items, ItemRecordsTo(region), k, r);
    assert r in NodeRecordsTo(region)(page[j]);
    WalkComplete(page, h + 1, LocationsBound(page, h), NodeRecordsTo(region), j, r);
  }

  // ---------------------------------------------------------------------------
  // The script

  /** What one retained link adds: nothing when its page cannot be fetched. */
  function RegionRecords(fetch: string -> Option<seq<Node>>, row: RegionLink): seq<LocationRecord> {
    match fetch(row.link)
    case None => []
    case Some(page) => RegionLocations(page, row.region)
  }

  function RegionRecordsTo(fetch: string -> Option<seq<Node>>): RegionLink -> seq<LocationRecord> {
    row => RegionRecords(fetch, row)
  }

  /** The whole script on the world page and a page fetcher. */
  function LocationsScript(regionsPage: seq<Node>, fetch: string -> Option<seq<Node>>)
    : Result<seq<LocationRecord>, ScriptError>
  {
    match FirstTitled(regionsPage, RegionsTitle)
    case None => Err(NoRegionsHeading)
    case Some(h) =>
      var found := RegionLinks(regionsPage, h);
      if found == [] then Err(NoRegionLinks)
      else
        var allLocations := Flatten(RetainedLinks(found), RegionRecordsTo(fetch));
        if allLocations == [] then Err(NoLocations)
        else Ok(DedupBy(allLocations, LocationOf))
  }

  /** `for index, row in df_links.iterrows()`: the locations of every retained link, in order. */
  method VisitRegions(dfLinks: seq<RegionLink>, fetch: string -> Option<seq<Node>>)
    returns (allLocations: seq<LocationRecord>)
    ensures allLocations == Flatten(dfLinks, RegionRecordsTo(fetch))
  {
    allLocations := [];
    var i := 0;
    while i < |dfLinks|
      invariant i <= |dfLinks|
      invariant allLocations == Flatten(dfLinks[..i], RegionRecordsTo(fetch))
    {
      FlattenStep(dfLinks, i, RegionRecordsTo(fetch));
      var locationList := VisitRegion(dfLinks[i], fetch);
      if locationList != [] {
        allLocations := allLocations + locationList;
      }
      i := i + 1;
    }
    assert dfLinks[..i] == dfLinks;
  }

  /** The module-level script, from the parsed world page to the final frame or the exception. */
  method ScrapeLocations(regionsPage: seq<Node>, fetch: string -> Option<seq<Node>>)
    returns (result: Result<seq<LocationRecord>, ScriptError>)
    ensures result == LocationsScript(regionsPage, fetch)
  {
    var regionsHeader := FindHeading(regionsPage, RegionsTitle);
    if regionsHeader.None? {
      return Err(NoRegionsHeading);
    }
    var regionsLinks := CollectRegionLinks(regionsPage, regionsHeader.value);
    if regionsLinks == [] {
      return Err(NoRegionLinks);
    }
    var dfLinks := ApplyBlacklist(regionsLinks);
    dfLinks := DedupBy(dfLinks, LinkOf);
    var allLocations := VisitRegions(dfLinks, fetch);
    if allLocations == [] {
      return Err(NoLocations);
    }
    return Ok(DedupBy(allLocations, LocationOf));
  }

  /** Every record collected from the retained links' pages is a stripped, non-empty location under the region of a fetched link. */
  lemma CollectedRecordSound(links: seq<RegionLink>, fetch: string -> Option<seq<Node>>, r: LocationRecord)
    requires r in Flatten(links, RegionRecordsTo(fetch))
    ensures r.location != "" && NoOuterSpace(r.location)
    ensures exists l :: l in links && l.region == r.region && fetch(l.link).Some?
  {
    FlattenOrigin(links, RegionRecordsTo(fetch), r);
    var j :| 0 <= j < |links| && r in RegionRecordsTo(fetch)(links[j]);
    assert r in RegionRecords(fetch, links[j]);
    RegionLocationsSound(fetch(links[j].link).value, links[j].region, r);
  }

  /**
   * A finished run holds distinct, stripped, non-empty locations, each
   * under the region of a retained link whose page was fetched; every
   * location collected from those pages is in it.
   */
  lemma LocationsScriptSound(regionsPage: seq<Node>, fetch: string -> Option<seq<Node>>)
    ensures var result := LocationsScript(regionsPage, fetch);
            result.Ok? ==>
              var h := FirstTitled(regionsPage, RegionsTitle).value;
              var links := RetainedLinks(RegionLinks(regionsPage, h));
              && KeysDistinct(result.value, LocationOf)
              && (forall r :: r in result.value ==>
                    r.location != "" && NoOuterSpace(r.location)
                    && exists l :: l in links && l.region == r.region && fetch(l.link).Some?)
              && (forall loc :: HasKey(Flatten(links, RegionRecordsTo(fetch)), LocationOf, loc)
                    ==> HasKey(result.value, LocationOf, loc))
  {
    var result := LocationsScript(regionsPage, fetch);
    if result.Ok? {
      var h := FirstTitled(regionsPage, RegionsTitle).value;
      var links := RetainedLinks(RegionLinks(regionsPage, h));
      var allLocations := Flatten(links, RegionRecordsTo(fetch));
      assert result.value == DedupBy(allLocations, LocationOf);
      forall r | r in result.value
        ensures r.location != "" && NoOuterSpace(r.location)
        ensures exists l :: l in links && l.region == r.region && fetch(l.link).Some?
      {
        var i :| 0 <= i < |result.value| && result.value[i] == r;
        DedupFromInput(allLocations, LocationOf, i);
        CollectedRecordSound(links, fetch, r);
      }
    }
  }
}
