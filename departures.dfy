/** One station's departure board (`scrape_departures`): the per-entry
    extraction rules, the destination filter, and the loop that collects the
    records of the entries that could be extracted. The markup tree is
    abstracted to what the extraction looks up in each entry. */
module Departures {
  import opened Wrappers
  import Text
  import Calendar
  import Occupancy

  /** One departure entry of a board, as the lookups see it: the text of the
      destination element, of the line element, of the departure-time and
      status elements (each `None` when the element is missing), the entry's
      descendant text nodes in document order, and its occupancy block. */
  datatype Entry = Entry(
    destination: Option<string>,
    line: Option<string>,
    time: Option<string>,
    status: Option<string>,
    texts: seq<string>,
    occupancy: Option<seq<Occupancy.Section>>)

  /** A departure record; its fields follow the output columns in order. */
  datatype Departure = Departure(
    timestamp: string,
    station: string,
    destination: string,
    line: string,
    trainNumber: string,
    departureTime: string,
    status: string,
    track: string,
    occupancy: Occupancy.Occupancy)

  /** The outcome of fetching one station's page: the entries of the page and
      the local time at which they were read, or a transport or HTTP error. */
  datatype Fetch = Fetched(entries: seq<Entry>, at: Calendar.LocalTime) | FetchFailed(cause: string)

  /** What becomes of one entry. */
  datatype EntryOutcome = Kept(departure: Departure) | FilteredOut | ExtractionFailed

  const TrainLabel := "Train"
  const TrackLabel := "Track"

  /** The destination filter: no filter and the empty filter keep everything;
      otherwise the lower-cased filter must occur in the lower-cased
      destination. */
  predicate KeepDestination(filter: Option<string>, destination: string)
  {
    filter.None? || filter.value == [] || Text.Contains(Text.Lower(destination), Text.Lower(filter.value))
  }

  /** `filter` matches `destination` at `i`, letter case aside. */
  ghost predicate MatchesAtIgnoringCase(destination: string, filter: string, i: int)
  {
    0 <= i <= |destination| - |filter|
    && forall j :: 0 <= j < |filter| ==> Text.ToLowerChar(destination[i + j]) == Text.ToLowerChar(filter[j])
  }

  /** A filter keeps a destination exactly when it occurs in the destination
      with letter case ignored; the empty filter occurs everywhere. */
  lemma KeepDestinationMeaning(filter: string, destination: string)
    ensures KeepDestination(Some(filter), destination) <==> exists i :: MatchesAtIgnoringCase(destination, filter, i)
  {
    var ld, lf := Text.Lower(destination), Text.Lower(filter);
    forall i
      ensures Text.OccursAt(ld, lf, i) <==> MatchesAtIgnoringCase(destination, filter, i)
    {
      if 0 <= i <= |destination| - |filter| {
        if ld[i..i + |lf|] == lf {
          forall j | 0 <= j < |filter| ensures ld[i + j] == lf[j] {
            assert ld[i..i + |lf|][j] == ld[i + j];
          }
        }
        if MatchesAtIgnoringCase(destination, filter, i) {
          assert ld[i..i + |lf|] == lf;
        }
      }
    }
    if filter == [] {
      assert MatchesAtIgnoringCase(destination, filter, 0);
    }
  }

  /** The first text node that contains `marker`. */
  function FirstContaining(texts: seq<string>, marker: string): (r: Option<string>)
    ensures r.None? <==> forall k :: 0 <= k < |texts| ==> !Text.Contains(texts[k], marker)
    ensures r.Some? ==> exists k ::
      && 0 <= k < |texts| && texts[k] == r.value
      && Text.Contains(r.value, marker)
      && forall j :: 0 <= j < k ==> !Text.Contains(texts[j], marker)
  {
    if texts == [] then None
    else if Text.Contains(texts[0], marker) then Some(texts[0])
    else
      var r := FirstContaining(texts[1..], marker);
      assert r.Some? ==> exists k ::
        && 1 <= k < |texts| && texts[k] == r.value
        && forall j :: 0 <= j < k ==> !Text.Contains(texts[j], marker) by {
        if r.Some? {
          var k :| 0 <= k < |texts[1..]| && texts[1..][k] == r.value
            && forall j :: 0 <= j < k ==> !Text.Contains(texts[1..][j], marker);
          assert forall j :: 1 <= j < k + 1 ==> texts[j] == texts[1..][j - 1];
        }
      }
      r
  }

  /** The marker scan used for the train number and the track: the first text
      node containing the marker, stripped, with the marker removed, stripped
      again; the empty string when no text node contains the marker. */
  function LabelValue(texts: seq<string>, marker: string): (r: string)
    ensures (forall k :: 0 <= k < |texts| ==> !Text.Contains(texts[k], marker)) ==> r == ""
    ensures r != [] ==> !Text.IsSpace(r[0]) && !Text.IsSpace(r[|r| - 1])
    ensures marker != [] && !Text.IsSpace(marker[0]) && !Text.IsSpace(marker[|marker| - 1])
            && FirstContaining(texts, marker).Some? ==>
      |r| <= |FirstContaining(texts, marker).value| - |marker|
  {
    match FirstContaining(texts, marker)
    case None => ""
    case Some(t) =>
      Text.StripKeepsOccurrence(t, marker);
      Text.Strip(Text.RemoveAll(Text.Strip(t), marker))
  }

  /** The first text node containing `marker` is the one at `k` when no text
      node before it contains the marker. */
  lemma FirstContainingAt(texts: seq<string>, marker: string, k: nat)
    requires k < |texts| && Text.Contains(texts[k], marker)
    requires forall j :: 0 <= j < k ==> !Text.Contains(texts[j], marker)
    ensures FirstContaining(texts, marker) == Some(texts[k])
  {
    var r := FirstContaining(texts, marker);
    var first :| 0 <= first < |texts| && texts[first] == r.value
      && Text.Contains(r.value, marker)
      && forall j :: 0 <= j < first ==> !Text.Contains(texts[j], marker);
    assert first == k;
  }

  /** What the marker scan reads from a labelled text node: when the first
      text node carrying the label is leading whitespace, the label, and a
      tail without a second label, the value is the tail, stripped. */
  lemma LabelValueOfLabelledText(texts: seq<string>, marker: string, k: nat, w: string, v: string)
    requires marker != [] && !Text.IsSpace(marker[0]) && !Text.IsSpace(marker[|marker| - 1])
    requires k < |texts| && texts[k] == w + marker + v
    requires forall j :: 0 <= j < k ==> !Text.Contains(texts[j], marker)
    requires forall i :: 0 <= i < |w| ==> Text.IsSpace(w[i])
    requires !Text.Contains(v, marker)
    ensures LabelValue(texts, marker) == Text.Strip(v)
  {
    var t := w + marker + v;
    assert t[|w|..|w| + |marker|] == marker;
    assert Text.OccursAt(t, marker, |w|);
    FirstContainingAt(texts, marker, k);
    Text.StripLabelled(w, marker, v);
    var u := Text.StripRight(v);
    Text.ContainsInPrefix(v, marker, |u|);
    Text.RemoveLeadingLabel(marker, u);
    Text.StripOfStripRight(v);
  }

  /** The extraction of one entry at capture time `at` for `station`. The
      destination is looked up first, then the filter is applied, then the
      line; a missing destination or line element is an extraction error.
      The other elements default to the empty string. */
  function ExtractEntry(e: Entry, station: string, filter: Option<string>, at: Calendar.LocalTime): (r: EntryOutcome)
    requires Calendar.ValidTime(at)
    ensures r.ExtractionFailed? <==>
      e.destination.None? || (KeepDestination(filter, Text.Strip(e.destination.value)) && e.line.None?)
    ensures r.FilteredOut? <==>
      e.destination.Some? && !KeepDestination(filter, Text.Strip(e.destination.value))
    ensures r.Kept? ==>
      && r.departure.station == station
      && r.departure.timestamp == Calendar.FormatTimestamp(at)
      && r.departure.destination == Text.Strip(e.destination.value)
      && KeepDestination(filter, r.departure.destination)
      && r.departure.line == Text.Strip(e.line.value)
      && r.departure.trainNumber == LabelValue(e.texts, TrainLabel)
      && r.departure.track == LabelValue(e.texts, TrackLabel)
      && r.departure.departureTime == Text.Strip(e.time.GetOr(""))
      && r.departure.status == Text.Strip(e.status.GetOr(""))
      && r.departure.occupancy == Occupancy.Summary(e.occupancy)
  {
    match e.destination
    case None => ExtractionFailed
    case Some(d) =>
      var destination := Text.Strip(d);
      if !KeepDestination(filter, destination) then FilteredOut
      else
        match e.line
        case None => ExtractionFailed
        case Some(l) =>
          Kept(Departure(
            Calendar.FormatTimestamp(at),
            station,
            destination,
            Text.Strip(l),
            LabelValue(e.texts, TrainLabel),
            match e.time case Some(t) => Text.Strip(t) case None => "",
            match e.status case Some(s) => Text.Strip(s) case None => "",
            LabelValue(e.texts, TrackLabel),
            Occupancy.Summary(e.occupancy)))
  }

  /** The record one entry contributes: its departure when it is kept,
      nothing otherwise. */
  function Contribution(e: Entry, station: string, filter: Option<string>, at: Calendar.LocalTime): (r: seq<Departure>)
    requires Calendar.ValidTime(at)
    ensures |r| <= 1
  {
    match ExtractEntry(e, station, filter, at)
    case Kept(d) => [d]
    case _ => []
  }

  /** The records of the entries that are kept, in board order. */
  function ExtractAll(entries: seq<Entry>, station: string, filter: Option<string>, at: Calendar.LocalTime): seq<Departure>
    requires Calendar.ValidTime(at)
  {
    if entries == [] then []
    else ExtractAll(entries[..|entries| - 1], station, filter, at) + Contribution(entries[|entries| - 1], station, filter, at)
  }

  /** What one station's scrape yields: nothing when the fetch failed. */
  function Scraped(fetch: Fetch, station: string, filter: Option<string>): seq<Departure>
    requires fetch.Fetched? ==> Calendar.ValidTime(fetch.at)
  {
    match fetch
    case FetchFailed(_) => []
    case Fetched(entries, at) => ExtractAll(entries, station, filter, at)
  }

  /** The scrape loop: every entry is extracted in turn and its record
      appended when it is kept; an entry that fails is skipped and the loop
      goes on with the next one. */
  method ScrapeDepartures(fetch: Fetch, station: string, filter: Option<string>) returns (departures: seq<Departure>)
    requires fetch.Fetched? ==> Calendar.ValidTime(fetch.at)
    ensures departures == Scraped(fetch, station, filter)
    ensures |departures| <= if fetch.Fetched? then |fetch.entries| else 0
  {
    if fetch.FetchFailed? {
      return [];
    }
    var entries := fetch.entries;
    departures := [];
    var i := 0;
    while i < |entries|
      invariant 0 <= i <= |entries|
      invariant departures == ExtractAll(entries[..i], station, filter, fetch.at)
    {
      assert entries[..i + 1][..i] == entries[..i];
      match ExtractEntry(entries[i], station, filter, fetch.at) {
        case Kept(d) => departures := departures + [d];
        case FilteredOut =>
        case ExtractionFailed =>
      }
      i := i + 1;
    }
    assert entries[..i] == entries;
    ExtractAllBound(entries, station, filter, fetch.at);
  }

  lemma {:induction false} ExtractAllBound(entries: seq<Entry>, station: string, filter: Option<string>, at: Calendar.LocalTime)
    requires Calendar.ValidTime(at)
    ensures |ExtractAll(entries, station, filter, at)| <= |entries|
  {
    if entries != [] {
      ExtractAllBound(entries[..|entries| - 1], station, filter, at);
    }
  }

  /** Extraction works entry by entry: the records of two consecutive runs of
      entries are the records of each run, in order. */
  lemma {:induction false} ExtractAllAppend(a: seq<Entry>, b: seq<Entry>, station: string, filter: Option<string>, at: Calendar.LocalTime)
    requires Calendar.ValidTime(at)
    ensures ExtractAll(a + b, station, filter, at) == ExtractAll(a, station, filter, at) + ExtractAll(b, station, filter, at)
  {
    if b == [] {
      assert a + b == a;
    } else {
      var init, last := b[..|b| - 1], b[|b| - 1];
      assert (a + b)[..|a + b| - 1] == a + init;
      assert (a + b)[|a + b| - 1] == last;
      ExtractAllAppend(a, init, station, filter, at);
      var left, middle := ExtractAll(a, station, filter, at), ExtractAll(init, station, filter, at);
      var c := Contribution(last, station, filter, at);
      assert ExtractAll(b, station, filter, at) == middle + c;
      assert ExtractAll(a + b, station, filter, at) == left + middle + c;
      assert left + middle + c == left + (middle + c);
    }
  }

  /** An entry that is filtered out or fails leaves no trace: its siblings'
      records are produced as if it were not there. */
  lemma {:induction false} SkippedEntryLeavesSiblings(a: seq<Entry>, e: Entry, b: seq<Entry>, station: string, filter: Option<string>, at: Calendar.LocalTime)
    requires Calendar.ValidTime(at)
    requires !ExtractEntry(e, station, filter, at).Kept?
    ensures ExtractAll(a + [e] + b, station, filter, at) == ExtractAll(a + b, station, filter, at)
  {
    assert ExtractAll([e], station, filter, at) == [] by {
      assert [e][..0] == [];
      assert Contribution(e, station, filter, at) == [];
    }
    ExtractAllAppend(a + [e], b, station, filter, at);
    ExtractAllAppend(a, [e], station, filter, at);
    ExtractAllAppend(a, b, station, filter, at);
  }

  /** Every record comes from a kept entry of the board. */
  lemma {:induction false} RecordsComeFromKeptEntries(entries: seq<Entry>, station: string, filter: Option<string>, at: Calendar.LocalTime, d: Departure)
    requires Calendar.ValidTime(at)
    requires d in ExtractAll(entries, station, filter, at)
    ensures exists k :: 0 <= k < |entries| && ExtractEntry(entries[k], station, filter, at) == Kept(d)
  {
    var init := entries[..|entries| - 1];
    var last := entries[|entries| - 1];
    if d in ExtractAll(init, station, filter, at) {
      RecordsComeFromKeptEntries(init, station, filter, at, d);
      var k :| 0 <= k < |init| && ExtractEntry(init[k], station, filter, at) == Kept(d);
      assert entries[k] == init[k];
    } else {
      assert ExtractEntry(last, station, filter, at) == Kept(d);
    }
  }

  /** Every kept entry contributes its record. */
  lemma {:induction false} KeptEntriesGiveRecords(entries: seq<Entry>, station: string, filter: Option<string>, at: Calendar.LocalTime, k: nat)
    requires Calendar.ValidTime(at)
    requires k < |entries| && ExtractEntry(entries[k], station, filter, at).Kept?
    ensures ExtractEntry(entries[k], station, filter, at).departure in ExtractAll(entries, station, filter, at)
  {
    if k < |entries| - 1 {
      var init := entries[..|entries| - 1];
      assert init[k] == entries[k];
      KeptEntriesGiveRecords(init, station, filter, at, k);
    }
  }

  /** Every record belongs to the station, carries the capture time and lies
      within the filter. */
  lemma RecordsMatchStationAndFilter(entries: seq<Entry>, station: string, filter: Option<string>, at: Calendar.LocalTime, d: Departure)
    requires Calendar.ValidTime(at)
    requires d in ExtractAll(entries, station, filter, at)
    ensures d.station == station && d.timestamp == Calendar.FormatTimestamp(at)
    ensures KeepDestination(filter, d.destination)
  {
    RecordsComeFromKeptEntries(entries, station, filter, at, d);
  }

  /** Without a filter, a board whose every entry has a destination and a line
      yields one record per entry. */
  lemma {:induction false} AllWellFormedKept(entries: seq<Entry>, station: string, at: Calendar.LocalTime)
    requires Calendar.ValidTime(at)
    requires forall k :: 0 <= k < |entries| ==> entries[k].destination.Some? && entries[k].line.Some?
    ensures |ExtractAll(entries, station, None, at)| == |entries|
  {
    if entries != [] {
      AllWellFormedKept(entries[..|entries| - 1], station, at);
    }
  }

  /** The filter is applied before the line is looked up: an entry outside
      the filter is dropped silently even when its line element is missing. */
  lemma FilterBeforeLine(e: Entry, station: string, filter: Option<string>, at: Calendar.LocalTime)
    requires Calendar.ValidTime(at)
    requires e.destination.Some? && !KeepDestination(filter, Text.Strip(e.destination.value))
    ensures ExtractEntry(e, station, filter, at) == FilteredOut
    ensures ExtractEntry(e.(line := None), station, filter, at) == FilteredOut
  {
  }

  /** A missing occupancy block is not an error: the entry is still kept,
      with all five counters zero. */
  lemma NoOccupancyStillKept(e: Entry, station: string, at: Calendar.LocalTime)
    requires Calendar.ValidTime(at)
    requires e.destination.Some? && e.line.Some? && e.occupancy.None?
    ensures ExtractEntry(e, station, None, at).Kept?
    ensures ExtractEntry(e, station, None, at).departure.occupancy == Occupancy.NoOccupancy
  {
  }

  /** A missing marker gives an empty field, not an extraction error. */
  lemma MissingTrackIsEmpty(e: Entry, station: string, filter: Option<string>, at: Calendar.LocalTime)
    requires Calendar.ValidTime(at)
    requires e.destination.Some? && e.line.Some? && KeepDestination(filter, Text.Strip(e.destination.value))
    requires forall k :: 0 <= k < |e.texts| ==> !Text.Contains(e.texts[k], TrackLabel)
    ensures ExtractEntry(e, station, filter, at).Kept?
    ensures ExtractEntry(e, station, filter, at).departure.track == ""
  {
  }

  /** The filter ignores case in both the filter and the destination; the
      empty filter behaves like no filter. */
  lemma FilterIgnoresCase(filter: string, destination: string)
    ensures KeepDestination(Some(filter), destination) == KeepDestination(Some(Text.Lower(filter)), destination)
    ensures KeepDestination(Some(filter), destination) == KeepDestination(Some(filter), Text.Lower(destination))
    ensures KeepDestination(Some(""), destination) && KeepDestination(None, destination)
  {
    Text.LowerIdempotent(filter);
    Text.LowerIdempotent(destination);
    assert Text.Lower(filter) == [] <==> filter == [];
  }

  /** An empty board yields no records, and so does a failed fetch. */
  lemma EmptyBoardYieldsNothing(station: string, filter: Option<string>, at: Calendar.LocalTime, cause: string)
    requires Calendar.ValidTime(at)
    ensures Scraped(Fetched([], at), station, filter) == []
    ensures Scraped(FetchFailed(cause), station, filter) == []
  {
  }

  /** Every record's four level counters add up to the number of dots in its
      entry's occupancy block. */
  lemma RecordCountersSumToDots(e: Entry, station: string, filter: Option<string>, at: Calendar.LocalTime)
    requires Calendar.ValidTime(at)
    requires ExtractEntry(e, station, filter, at).Kept?
    ensures var o := ExtractEntry(e, station, filter, at).departure.occupancy;
      o.light + o.medium + o.heavy + o.noData == if e.occupancy.None? then 0 else |Occupancy.Dots(e.occupancy.value)|
  {
    Occupancy.CountersSumToDots(e.occupancy);
  }
}
