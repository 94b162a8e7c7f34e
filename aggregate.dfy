/**
 * The aggregator of the activity scraper: an object holding one record
 * sequence per table kind, to which each activity page's image-bearing,
 * non-empty, classified tables are appended, every record stamped with the
 * page's activity name.
 */
module Aggregate {
  import opened Wrappers
  import opened Html
  import opened Classify
  import opened Normalize
  import opened ActivityLinks

  const ActivityKey := "Activity"

  /** The property every stored record has: well formed, with `Activity` set to `name`. */
  ghost predicate StampedWith(r: Record, name: string) {
    r.Valid() && ActivityKey in r.fields && r.fields[ActivityKey] == name
  }

  /** Every record with `Activity` set to `name`, overwriting a column of that name. */
  function Stamp(records: seq<Record>, name: string): (stamped: seq<Record>)
    ensures |stamped| == |records|
    ensures forall i :: 0 <= i < |records| ==>
              stamped[i].fields == records[i].fields[ActivityKey := name]
              && stamped[i].keys == (if ActivityKey in records[i].fields then records[i].keys
                                     else records[i].keys + [ActivityKey])
              && (records[i].Valid() ==> StampedWith(stamped[i], name))
  {
    seq(|records|, i requires 0 <= i < |records| => records[i].Set(ActivityKey, name))
  }

  /** Stamping well-formed records gives records stamped with `name`. */
  lemma StampAll(records: seq<Record>, name: string)
    requires forall r :: r in records ==> r.Valid()
    ensures forall r :: r in Stamp(records, name) ==> StampedWith(r, name)
  {
    var stamped := Stamp(records, name);
    forall r | r in stamped ensures StampedWith(r, name) {
      var i :| 0 <= i < |stamped| && stamped[i] == r;
      assert records[i] in records;
    }
  }

  /** The records a table adds, and to which kind. */
  datatype Batch = Batch(kind: TableKind, records: seq<Record>)

  /**
   * What one table of the page named `name` contributes: nothing for a table
   * with no image, no records or no kind; otherwise its records, stamped, for
   * the kind its first record's keys and its rows give.
   */
  function TableBatch(name: string, t: Table): (batch: Option<Batch>)
    ensures !HasImages(t) ==> batch == None
    ensures TableRecords(t) == [] ==> batch == None
    ensures batch.Some? ==>
              TableRecords(t) != []
              && Some(batch.value.kind) == TableType(TableRecords(t)[0].keys, t)
              && |batch.value.records| == |TableRecords(t)|
              && forall r :: r in batch.value.records ==> StampedWith(r, name)
    ensures HasImages(t) && TableRecords(t) != [] && TableType(TableRecords(t)[0].keys, t).Some? ==>
              batch == Some(Batch(TableType(TableRecords(t)[0].keys, t).value, Stamp(TableRecords(t), name)))
  {
    if !HasImages(t) then None
    else
      var records := TableRecords(t);
      if records == [] then None
      else
        match TableType(records[0].keys, t)
        case None => None
        case Some(kind) =>
          TableRecordsShape(t);
          StampAll(records, name);
          Some(Batch(kind, Stamp(records, name)))
  }

  /** The four record sequences of the scraper, one per table kind. */
  datatype Accumulators = Accumulators(
    activityInfo: seq<Record>, experienceInfo: seq<Record>, drops: seq<Record>, specialDrops: seq<Record>)
  {
    /** The sequence that holds the records of `kind`. */
    function Get(kind: TableKind): seq<Record> {
      match kind
      case ActivityInfo => activityInfo
      case ExperienceInfo => experienceInfo
      case Drops => drops
      case SpecialDrops => specialDrops
    }

    /** Each sequence extended by the one of the same kind in `more`. */
    function Plus(more: Accumulators): (sum: Accumulators)
      ensures forall kind :: sum.Get(kind) == Get(kind) + more.Get(kind)
    {
      Accumulators(activityInfo + more.activityInfo, experienceInfo + more.experienceInfo,
                   drops + more.drops, specialDrops + more.specialDrops)
    }
  }

  const NoRecords := Accumulators([], [], [], [])

  /** `records` in the sequence of `kind`, nothing in the others. */
  function Single(kind: TableKind, records: seq<Record>): (acc: Accumulators)
    ensures forall k :: acc.Get(k) == if k == kind then records else []
  {
    match kind
    case ActivityInfo => Accumulators(records, [], [], [])
    case ExperienceInfo => Accumulators([], records, [], [])
    case Drops => Accumulators([], [], records, [])
    case SpecialDrops => Accumulators([], [], [], records)
  }

  lemma PlusAssociative(a: Accumulators, b: Accumulators, c: Accumulators)
    ensures a.Plus(b).Plus(c) == a.Plus(b.Plus(c))
  {
    assert a.activityInfo + b.activityInfo + c.activityInfo == a.activityInfo + (b.activityInfo + c.activityInfo);
    assert a.experienceInfo + b.experienceInfo + c.experienceInfo == a.experienceInfo + (b.experienceInfo + c.experienceInfo);
    assert a.drops + b.drops + c.drops == a.drops + (b.drops + c.drops);
    assert a.specialDrops + b.specialDrops + c.specialDrops == a.specialDrops + (b.specialDrops + c.specialDrops);
  }

  lemma PlusNothing(a: Accumulators)
    ensures a.Plus(NoRecords) == a && NoRecords.Plus(a) == a
  {
    assert a.activityInfo + [] == a.activityInfo && a.experienceInfo + [] == a.experienceInfo;
    assert a.drops + [] == a.drops && a.specialDrops + [] == a.specialDrops;
  }

  /**
   * What one table adds: only the sequence of its own kind grows, by exactly
   * its records; an image-free, empty or unclassified table adds nothing.
   */
  function TableAdded(name: string, t: Table): (added: Accumulators)
    ensures TableBatch(name, t).None? ==> added == NoRecords
    ensures HasImages(t) && TableRecords(t) != [] && TableType(TableRecords(t)[0].keys, t).Some? ==>
              added == Single(TableType(TableRecords(t)[0].keys, t).value, Stamp(TableRecords(t), name))
    ensures TableBatch(name, t).Some? ==>
              forall kind :: added.Get(kind)
                == if kind == TableBatch(name, t).value.kind then TableBatch(name, t).value.records else []
  {
    match TableBatch(name, t)
    case None => NoRecords
    case Some(b) => Single(b.kind, b.records)
  }

  /** What a page's tables add, in table order. */
  function PageAdded(name: string, tables: seq<Table>): Accumulators {
    if tables == [] then NoRecords
    else PageAdded(name, tables[..|tables| - 1]).Plus(TableAdded(name, tables[|tables| - 1]))
  }

  lemma PageAddedStep(name: string, tables: seq<Table>, i: nat)
    requires i < |tables|
    ensures PageAdded(name, tables[..i + 1]) == PageAdded(name, tables[..i]).Plus(TableAdded(name, tables[i]))
  {
    assert tables[..i + 1][..i] == tables[..i];
  }

  /** What two runs of tables add is what each adds, in order. */
  lemma {:induction false} PageAddedAppend(name: string, ts: seq<Table>, us: seq<Table>)
    ensures PageAdded(name, ts + us) == PageAdded(name, ts).Plus(PageAdded(name, us))
    decreases |us|
  {
    if us == [] {
      assert ts + us == ts;
      PlusNothing(PageAdded(name, ts));
    } else {
      var n := |us| - 1;
      assert (ts + us)[..|ts + us| - 1] == ts + us[..n];
      assert (ts + us)[|ts + us| - 1] == us[n];
      PageAddedAppend(name, ts, us[..n]);
      PlusAssociative(PageAdded(name, ts), PageAdded(name, us[..n]), TableAdded(name, us[n]));
    }
  }

  /** Every record a page adds carries that page's activity name. */
  lemma {:induction false} PageAddedStamped(name: string, tables: seq<Table>, kind: TableKind)
    ensures forall r :: r in PageAdded(name, tables).Get(kind) ==> StampedWith(r, name)
  {
    if tables != [] {
      PageAddedStamped(name, tables[..|tables| - 1], kind);
    }
  }

  /** What one activity link adds: nothing when its page cannot be fetched. */
  function LinkAdded(link: LinkRef, fetch: string -> Option<seq<Table>>): Accumulators {
    match fetch(link.url)
    case Some(tables) => PageAdded(link.name, tables)
    case None => NoRecords
  }

  /** What the activity pages of `links` add, in crawl order. */
  function CrawlAdded(links: seq<LinkRef>, fetch: string -> Option<seq<Table>>): Accumulators {
    if links == [] then NoRecords
    else CrawlAdded(links[..|links| - 1], fetch).Plus(LinkAdded(links[|links| - 1], fetch))
  }

  lemma CrawlAddedStep(links: seq<LinkRef>, fetch: string -> Option<seq<Table>>, i: nat)
    requires i < |links|
    ensures CrawlAdded(links[..i + 1], fetch) == CrawlAdded(links[..i], fetch).Plus(LinkAdded(links[i], fetch))
  {
    assert links[..i + 1][..i] == links[..i];
  }

  /** Every record of a crawl is stamped with the name of one of the crawled links. */
  lemma {:induction false} CrawlAddedProvenance(links: seq<LinkRef>, fetch: string -> Option<seq<Table>>, kind: TableKind)
    ensures forall r :: r in CrawlAdded(links, fetch).Get(kind) ==>
              exists i :: 0 <= i < |links| && StampedWith(r, links[i].name)
  {
    if links != [] {
      var n := |links| - 1;
      CrawlAddedProvenance(links[..n], fetch, kind);
      forall r | r in CrawlAdded(links, fetch).Get(kind)
        ensures exists i :: 0 <= i < |links| && StampedWith(r, links[i].name)
      {
        if r in CrawlAdded(links[..n], fetch).Get(kind) {
          var i :| 0 <= i < n && StampedWith(r, links[..n][i].name);
          assert links[..n][i] == links[i];
        } else {
          PageAddedStamped(links[n].name, fetch(links[n].url).value, kind);
        }
      }
    }
  }

  /** The scraper object with its four record sequences. */
  class ActivityScraper {
    var activityInfo: seq<Record>
    var experienceInfo: seq<Record>
    var drops: seq<Record>
    var specialDrops: seq<Record>

    /** The four sequences as one value. */
    function State(): Accumulators
      reads this
    {
      Accumulators(activityInfo, experienceInfo, drops, specialDrops)
    }

    constructor ()
      ensures State() == NoRecords
    {
      activityInfo, experienceInfo, drops, specialDrops := [], [], [], [];
    }

    /** The `pd.concat` of one table's records onto the frame of its kind. */
    method Append(kind: TableKind, records: seq<Record>)
      modifies this
      ensures State() == old(State()).Plus(Single(kind, records))
    {
      match kind
      case ActivityInfo => activityInfo := activityInfo + records;
      case ExperienceInfo => experienceInfo := experienceInfo + records;
      case Drops => drops := drops + records;
      case SpecialDrops => specialDrops := specialDrops + records;
    }

    /** `extract_tables_from_activity_page` on a fetched page. */
    method ExtractTablesFromActivityPage(name: string, tables: seq<Table>)
      modifies this
      ensures State() == old(State()).Plus(PageAdded(name, tables))
    {
      PlusNothing(State());
      var i := 0;
      while i < |tables|
        invariant i <= |tables|
        invariant State() == old(State()).Plus(PageAdded(name, tables[..i]))
      {
        PageAddedStep(name, tables, i);
        PlusAssociative(old(State()), PageAdded(name, tables[..i]), TableAdded(name, tables[i]));
        ExtractTable(name, tables[i]);
        i := i + 1;
      }
      assert tables[..i] == tables;
    }

    /** The body of the page loop for one table: classify, clean, stamp, append. */
    method ExtractTable(name: string, table: Table)
      modifies this
      ensures State() == old(State()).Plus(TableAdded(name, table))
    {
      PlusNothing(State());
      if HasImages(table) {
        var tableData := CleanTableData(table);
        if tableData != [] {
          var headers := tableData[0].keys;
          var tableType := TableType(headers, table);
          if tableType.Some? {
            var stamped := StampRows(tableData, name);
            Append(tableType.value, stamped);
          }
        }
      }
    }

    /** One pass of the crawl loop: fetch the activity page and extract its tables if it came back. */
    method ScrapeActivity(activity: LinkRef, fetch: string -> Option<seq<Table>>)
      modifies this
      ensures State() == old(State()).Plus(LinkAdded(activity, fetch))
    {
      PlusNothing(State());
      var page := fetch(activity.url);
      if page.Some? {
        ExtractTablesFromActivityPage(activity.name, page.value);
      }
    }

    /** `scrape_all_activities`: the listing page, then every activity page in link order. */
    method ScrapeAllActivities(activitiesUrl: string, absolute: string -> string,
                               fetch: string -> Option<seq<Table>>)
      modifies this
      ensures fetch(activitiesUrl).None? ==> State() == old(State())
      ensures fetch(activitiesUrl).Some? ==>
                State() == old(State()).Plus(CrawlAdded(ActivityLinks.ActivityLinks(fetch(activitiesUrl).value, absolute), fetch))
    {
      PlusNothing(State());
      var listing := fetch(activitiesUrl);
      if listing.None? {
        return;
      }
      var activityLinks := ExtractActivityLinks(listing.value, absolute);
      if activityLinks == [] {
        return;
      }
      CrawlActivities(activityLinks, fetch);
    }

    /** The crawl loop of `scrape_all_activities`: every activity page in link order. */
    method CrawlActivities(activityLinks: seq<LinkRef>, fetch: string -> Option<seq<Table>>)
      modifies this
      ensures State() == old(State()).Plus(CrawlAdded(activityLinks, fetch))
    {
      PlusNothing(State());
      var i := 0;
      while i < |activityLinks|
        invariant i <= |activityLinks|
        invariant State() == old(State()).Plus(CrawlAdded(activityLinks[..i], fetch))
      {
        CrawlAddedStep(activityLinks, fetch, i);
        PlusAssociative(old(State()), CrawlAdded(activityLinks[..i], fetch), LinkAdded(activityLinks[i], fetch));
        ScrapeActivity(activityLinks[i], fetch);
        i := i + 1;
      }
      assert activityLinks[..i] == activityLinks;
    }
  }

  /** The loop `for row in table_data: row['Activity'] = activity_name`. */
  method StampRows(tableData: seq<Record>, name: string) returns (stamped: seq<Record>)
    ensures stamped == Stamp(tableData, name)
  {
    stamped := [];
    var r := 0;
    while r < |tableData|
      invariant r <= |tableData|
      invariant stamped == Stamp(tableData[..r], name)
    {
      stamped := stamped + [tableData[r].Set(ActivityKey, name)];
      r := r + 1;
    }
    assert tableData[..r] == tableData;
  }
}
