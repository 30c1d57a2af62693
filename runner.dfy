/** One run of the scraper (`run`): every station of the fixed table is
    scraped in table order, the records are concatenated, and the whole list
    is saved once. */
module Runner {
  import opened Wrappers
  import Text
  import Calendar
  import Departures
  import DailyLog

  /** A station key and the URL of its departure board. */
  datatype Station = Station(key: string, url: string)

  /** The station table, in iteration order. */
  const Stations := [
    Station("secaucus_upper", "https://www.njtransit.com/dv-to/Secaucus%20Junction%20Upper%20Level"),
    Station("secaucus_lower", "https://www.njtransit.com/dv-to/Secaucus%20Junction%20Lower%20Level"),
    Station("newark", "https://www.njtransit.com/dv-to/Newark%20Penn%20Station"),
    Station("watsessing", "https://www.njtransit.com/dv-to/Watsessing%20Avenue%20Station"),
    Station("maplewood", "https://www.njtransit.com/dv-to/Maplewood%20Station")
  ]

  /** The character at `i` of a key's display name: an underscore becomes a
      space, a letter that starts a word (a run of letters) is upper-cased,
      any other letter is lower-cased, and anything else is kept. */
  function NameCharAt(key: string, i: nat): (c: char)
    requires i < |key|
  {
    if key[i] == '_' then ' '
    else if i == 0 || !Text.IsAsciiLetter(key[i - 1]) then Text.ToUpperChar(key[i])
    else Text.ToLowerChar(key[i])
  }

  /** `key.replace('_', ' ').title()`. */
  function StationName(key: string): (r: string)
    ensures |r| == |key|
    ensures forall i :: 0 <= i < |key| ==> r[i] == NameCharAt(key, i)
  {
    var spaced := Text.ReplaceChar(key, '_', ' ');
    Text.Title(spaced)
  }

  /** A key's display name is `name` when it agrees with NameCharAt at every
      position. */
  lemma NameFromChars(key: string, name: string)
    requires |key| == |name|
    requires forall i :: 0 <= i < |key| ==> NameCharAt(key, i) == name[i]
    ensures StationName(key) == name
  {
  }

  // The display names of the five stations of the table, in table order.

  lemma SecaucusUpperName()
    ensures StationName(Stations[0].key) == "Secaucus Upper"
  {
    assert Stations[0].key == "secaucus_upper";
    var key, name := "secaucus_upper", "Secaucus Upper";
    assert NameCharAt(key, 0) == 'S';
    assert NameCharAt(key, 8) == ' ';
    assert NameCharAt(key, 9) == 'U';
    forall i | 0 <= i < |key| ensures NameCharAt(key, i) == name[i] { }
    NameFromChars(key, name);
  }

  lemma SecaucusLowerName()
    ensures StationName(Stations[1].key) == "Secaucus Lower"
  {
    assert Stations[1].key == "secaucus_lower";
    var key, name := "secaucus_lower", "Secaucus Lower";
    assert NameCharAt(key, 0) == 'S';
    assert NameCharAt(key, 8) == ' ';
    assert NameCharAt(key, 9) == 'L';
    forall i | 0 <= i < |key| ensures NameCharAt(key, i) == name[i] { }
    NameFromChars(key, name);
  }

  lemma NewarkName()
    ensures StationName(Stations[2].key) == "Newark"
  {
    assert Stations[2].key == "newark";
    var key, name := "newark", "Newark";
    assert NameCharAt(key, 0) == 'N';
    forall i | 0 <= i < |key| ensures NameCharAt(key, i) == name[i] { }
    NameFromChars(key, name);
  }

  lemma WatsessingName()
    ensures StationName(Stations[3].key) == "Watsessing"
  {
    assert Stations[3].key == "watsessing";
    var key, name := "watsessing", "Watsessing";
    assert NameCharAt(key, 0) == 'W';
    forall i | 0 <= i < |key| ensures NameCharAt(key, i) == name[i] { }
    NameFromChars(key, name);
  }

  lemma MaplewoodName()
    ensures StationName(Stations[4].key) == "Maplewood"
  {
    assert Stations[4].key == "maplewood";
    var key, name := "maplewood", "Maplewood";
    assert NameCharAt(key, 0) == 'M';
    forall i | 0 <= i < |key| ensures NameCharAt(key, i) == name[i] { }
    NameFromChars(key, name);
  }

  /** Each fetched page has a valid capture time. */
  predicate WellTimed(fetches: seq<Departures.Fetch>)
  {
    forall i :: 0 <= i < |fetches| ==> fetches[i].Fetched? ==> Calendar.ValidTime(fetches[i].at)
  }

  /** The records of each station of `stations`, given what fetching its
      board gave. */
  function PerStation(stations: seq<Station>, fetches: seq<Departures.Fetch>, filter: Option<string>): (r: seq<seq<Departures.Departure>>)
    requires |fetches| <= |stations| && WellTimed(fetches)
    ensures |r| == |fetches|
    ensures forall i :: 0 <= i < |fetches| ==>
      r[i] == Departures.Scraped(fetches[i], StationName(stations[i].key), filter)
  {
    seq(|fetches|, i requires 0 <= i < |fetches| =>
      Departures.Scraped(fetches[i], StationName(stations[i].key), filter))
  }

  /** The records of the first `i` stations depend only on those stations'
      own fetches. */
  lemma PerStationPrefix(stations: seq<Station>, fetches: seq<Departures.Fetch>, filter: Option<string>, i: nat)
    requires |fetches| <= |stations| && WellTimed(fetches) && i <= |fetches|
    ensures WellTimed(fetches[..i])
    ensures PerStation(stations, fetches, filter)[..i] == PerStation(stations, fetches[..i], filter)
  {
  }

  /** The lists one after the other. */
  function Concat<T(!new)>(lists: seq<seq<T>>): (r: seq<T>)
    ensures forall x :: x in r <==> exists i :: 0 <= i < |lists| && x in lists[i]
  {
    if lists == [] then [] else Concat(lists[..|lists| - 1]) + lists[|lists| - 1]
  }

  lemma {:induction false} ConcatAppend<T(!new)>(a: seq<seq<T>>, b: seq<seq<T>>)
    ensures Concat(a + b) == Concat(a) + Concat(b)
  {
    if b != [] {
      assert (a + b)[..|a + b| - 1] == a + b[..|b| - 1];
      ConcatAppend(a, b[..|b| - 1]);
    } else {
      assert a + b == a;
    }
  }

  /** The records of station `i` sit between those of the stations before it
      and those of the stations after it, unchanged. */
  lemma {:induction false} ConcatSplit<T(!new)>(lists: seq<seq<T>>, i: nat)
    requires i < |lists|
    ensures Concat(lists) == Concat(lists[..i]) + lists[i] + Concat(lists[i + 1..])
  {
    var pre, mid, post := lists[..i], [lists[i]], lists[i + 1..];
    assert lists == pre + mid + post;
    ConcatAppend(pre + mid, post);
    ConcatAppend(pre, mid);
    assert mid[..0] == [];
    assert Concat(mid) == lists[i];
  }

  lemma ConcatSnoc<T(!new)>(lists: seq<seq<T>>, i: nat)
    requires i < |lists|
    ensures Concat(lists[..i + 1]) == Concat(lists[..i]) + lists[i]
  {
    assert lists[..i + 1][..i] == lists[..i];
  }

  /** An empty list in the middle can be dropped. */
  lemma {:induction false} ConcatDropEmpty<T(!new)>(lists: seq<seq<T>>, i: nat)
    requires i < |lists| && lists[i] == []
    ensures Concat(lists) == Concat(lists[..i]) + Concat(lists[i + 1..])
  {
    ConcatSplit(lists, i);
  }

  /** A station whose fetch fails contributes nothing and leaves the other
      stations' records as they were. */
  lemma {:induction false} FailedStationIsIsolated(stations: seq<Station>, fetches: seq<Departures.Fetch>, filter: Option<string>, i: nat, cause: string)
    requires |fetches| <= |stations| && WellTimed(fetches) && i < |fetches|
    ensures WellTimed(fetches[i := Departures.FetchFailed(cause)])
    ensures Concat(PerStation(stations, fetches[i := Departures.FetchFailed(cause)], filter)) ==
      Concat(PerStation(stations, fetches, filter)[..i]) + Concat(PerStation(stations, fetches, filter)[i + 1..])
  {
    var failed := fetches[i := Departures.FetchFailed(cause)];
    var a := PerStation(stations, fetches, filter);
    var b := PerStation(stations, failed, filter);
    assert b[..i] == a[..i];
    assert b[i + 1..] == a[i + 1..];
    assert b[i] == [];
    ConcatDropEmpty(b, i);
  }

  /** The run over the station table `stations` (the deployed table is
      Stations): each station's board is scraped in table order and its
      records appended to the run's list; the list is then saved once.
      Returns the records of the run and the outcome of the save. */
  method Run(stations: seq<Station>, fetches: seq<Departures.Fetch>, filter: Option<string>, disk: DailyLog.Disk, now: Calendar.LocalTime)
    returns (all: seq<Departures.Departure>, saved: Result<DailyLog.Disk, DailyLog.SaveError>)
    requires |fetches| == |stations| && WellTimed(fetches) && Calendar.ValidTime(now)
    ensures all == Concat(PerStation(stations, fetches, filter))
    ensures saved == DailyLog.Save(disk, all, now)
    ensures all == [] ==> saved == Success(disk)
  {
    all := [];
    var i := 0;
    while i < |stations|
      invariant 0 <= i <= |stations|
      invariant all == Concat(PerStation(stations, fetches, filter)[..i])
    {
      var name := StationName(stations[i].key);
      var departures := Departures.ScrapeDepartures(fetches[i], name, filter);
      ghost var lists := PerStation(stations, fetches, filter);
      assert departures == lists[i];
      ConcatSnoc(lists, i);
      all := all + departures;
      i := i + 1;
    }
    assert PerStation(stations, fetches, filter)[..i] == PerStation(stations, fetches, filter);
    saved := DailyLog.Save(disk, all, now);
  }
}
