/** The daily log writer (`get_current_file_date`, `save_to_csv`). The file
    system is a value: a set of directories and a map from file paths to
    their lines, each line the header or one record. */
module DailyLog {
  import opened Wrappers
  import Calendar
  import Paths
  import Departures

  /** The output columns, in record field order. */
  const Columns := ["timestamp", "station", "destination", "line", "train_number",
                    "departure_time", "status", "track", "car_sections",
                    "occupancy_light", "occupancy_medium", "occupancy_heavy", "occupancy_no_data"]

  datatype Line = Header(columns: seq<string>) | Row(departure: Departures.Departure)

  datatype Disk = Disk(dirs: set<string>, files: map<string, seq<Line>>)

  /** Saving fails only when the service day cannot be computed. */
  datatype SaveError = DateOverflow

  const OutputRoot := "departures"
  const FilePrefix := "departures_"
  const FileSuffix := ".csv"

  /** `get_current_file_date`: the output root joined with the service day. */
  function BucketPath(now: Calendar.LocalTime): (r: Option<string>)
    requires Calendar.ValidTime(now)
    ensures r.None? <==> Calendar.ServiceDay(now).None?
    ensures r.Some? ==> r.value == OutputRoot + "/" + Calendar.FormatDate(Calendar.ServiceDay(now).value)
  {
    match Calendar.ServiceDay(now)
    case None => None
    case Some(d) => Some(Paths.Join(OutputRoot, Calendar.FormatDate(d)))
  }

  /** The directory `save_to_csv` creates: the directory part of the bucket path. */
  function OutputDir(bucket: string): string
  {
    Paths.Dirname(bucket)
  }

  /** The file `save_to_csv` writes: in the directory part of the bucket path,
      named after its last component. */
  function OutputFile(bucket: string): string
  {
    Paths.Join(OutputDir(bucket), FilePrefix + Paths.Basename(bucket) + FileSuffix)
  }

  lemma NoSepInDate(d: Calendar.Date)
    requires Calendar.ValidDate(d)
    ensures Paths.Sep !in Calendar.FormatDate(d)
  {
    var s := Calendar.FormatDate(d);
    forall k | 0 <= k < |s| ensures s[k] != Paths.Sep { }
  }

  /** The file of a bucket is `departures/departures_<YYYY-MM-DD>.csv`, in the
      directory `departures` itself, not in a per-day subdirectory. */
  lemma OutputLocation(now: Calendar.LocalTime)
    requires Calendar.ValidTime(now) && Calendar.ServiceDay(now).Some?
    ensures OutputDir(BucketPath(now).value) == "departures"
    ensures OutputFile(BucketPath(now).value) == "departures/departures_" + Calendar.FormatDate(Calendar.ServiceDay(now).value) + ".csv"
  {
    var date := Calendar.FormatDate(Calendar.ServiceDay(now).value);
    NoSepInDate(Calendar.ServiceDay(now).value);
    Paths.SplitJoin(OutputRoot, date);
  }

  /** The name of the log file of a service day. */
  function LogFile(d: Calendar.Date): string
    requires Calendar.ValidDate(d)
  {
    "departures/departures_" + Calendar.FormatDate(d) + ".csv"
  }

  /** The lines a list of records becomes. */
  function Rows(departures: seq<Departures.Departure>): (r: seq<Line>)
    ensures |r| == |departures|
    ensures forall k :: 0 <= k < |r| ==> r[k] == Row(departures[k])
  {
    seq(|departures|, k requires 0 <= k < |departures| => Row(departures[k]))
  }

  /** The rows of two lists of records are the rows of the first followed by
      those of the second. */
  lemma RowsAppend(a: seq<Departures.Departure>, b: seq<Departures.Departure>)
    ensures Rows(a + b) == Rows(a) + Rows(b)
  {
  }

  /** `save_to_csv` at clock reading `now`: nothing happens for no records;
      otherwise the output directory is created if needed, and the records are
      appended to the bucket's file, after a header when the file is new. */
  function Save(disk: Disk, departures: seq<Departures.Departure>, now: Calendar.LocalTime): (r: Result<Disk, SaveError>)
    requires Calendar.ValidTime(now)
    ensures departures == [] ==> r == Success(disk)
    ensures departures != [] ==> (r.Failure? <==> Calendar.ServiceDay(now).None?)
    ensures r.Success? ==> disk.dirs <= r.value.dirs && disk.files.Keys <= r.value.files.Keys
  {
    if departures == [] then Success(disk)
    else
      match BucketPath(now)
      case None => Failure(DateOverflow)
      case Some(bucket) =>
        var file := OutputFile(bucket);
        var lines := if file in disk.files then disk.files[file] + Rows(departures)
                     else [Header(Columns)] + Rows(departures);
        Success(Disk(disk.dirs + {OutputDir(bucket)}, disk.files[file := lines]))
  }

  /** What a save does to the disk: no records, no change; otherwise the
      bucket's file gains the records, a header first if it was absent, and no
      other file changes. */
  lemma SaveEffect(disk: Disk, departures: seq<Departures.Departure>, now: Calendar.LocalTime)
    requires Calendar.ValidTime(now)
    ensures departures == [] ==> Save(disk, departures, now) == Success(disk)
    ensures departures != [] && Calendar.ServiceDay(now).None? ==> Save(disk, departures, now).Failure?
    ensures departures != [] && Calendar.ServiceDay(now).Some? ==>
      var file := LogFile(Calendar.ServiceDay(now).value);
      var r := Save(disk, departures, now);
      && r.Success?
      && r.value.dirs == disk.dirs + {"departures"}
      && r.value.files.Keys == disk.files.Keys + {file}
      && r.value.files[file] == (if file in disk.files then disk.files[file] else [Header(Columns)]) + Rows(departures)
      && forall p :: p in disk.files && p != file ==> r.value.files[p] == disk.files[p]
  {
    if departures != [] && Calendar.ServiceDay(now).Some? {
      OutputLocation(now);
    }
  }

  /** The part of SaveEffect about the service day's own file. */
  lemma SaveAppendsToLog(disk: Disk, departures: seq<Departures.Departure>, now: Calendar.LocalTime)
    requires Calendar.ValidTime(now) && departures != [] && Calendar.ServiceDay(now).Some?
    ensures var file := LogFile(Calendar.ServiceDay(now).value);
      var r := Save(disk, departures, now);
      && r.Success?
      && file in r.value.files
      && r.value.files[file] == (if file in disk.files then disk.files[file] else [Header(Columns)]) + Rows(departures)
  {
    SaveEffect(disk, departures, now);
  }

  /** A log as the writer keeps it: one header line, then records only. */
  predicate WellFormedLog(lines: seq<Line>)
  {
    |lines| >= 1 && lines[0] == Header(Columns) && forall k :: 1 <= k < |lines| ==> lines[k].Row?
  }

  function HeaderCount(lines: seq<Line>): nat
  {
    if lines == [] then 0 else HeaderCount(lines[..|lines| - 1]) + if lines[|lines| - 1].Header? then 1 else 0
  }

  /** A well-formed log holds exactly one header. */
  lemma {:induction false} WellFormedLogHasOneHeader(lines: seq<Line>)
    requires WellFormedLog(lines)
    ensures HeaderCount(lines) == 1
  {
    if |lines| > 1 {
      var init := lines[..|lines| - 1];
      assert WellFormedLog(init);
      WellFormedLogHasOneHeader(init);
    } else {
      assert lines[..0] == [];
    }
  }

  lemma AppendRowsKeepsLog(lines: seq<Line>, departures: seq<Departures.Departure>)
    requires WellFormedLog(lines)
    ensures WellFormedLog(lines + Rows(departures))
  {
  }

  /** Saving keeps every log the writer produced well formed. */
  lemma SavePreservesLogs(disk: Disk, departures: seq<Departures.Departure>, now: Calendar.LocalTime)
    requires Calendar.ValidTime(now)
    requires forall p :: p in disk.files ==> WellFormedLog(disk.files[p])
    requires Save(disk, departures, now).Success?
    ensures forall p :: p in Save(disk, departures, now).value.files ==>
      WellFormedLog(Save(disk, departures, now).value.files[p])
  {
    SaveEffect(disk, departures, now);
  }

  /** A header followed by the rows of two lists holds one header. */
  lemma HeaderThenRowsHasOneHeader(a: seq<Departures.Departure>, b: seq<Departures.Departure>)
    ensures HeaderCount([Header(Columns)] + Rows(a) + Rows(b)) == 1
  {
    AppendRowsKeepsLog([Header(Columns)], a);
    AppendRowsKeepsLog([Header(Columns)] + Rows(a), b);
    WellFormedLogHasOneHeader([Header(Columns)] + Rows(a) + Rows(b));
  }

  /** Two saves in one service-day bucket, starting without the bucket's file,
      give one file with one header followed by the rows of both saves in
      order. */
  lemma TwoSavesOneHeader(disk: Disk, first: seq<Departures.Departure>, second: seq<Departures.Departure>,
                          t1: Calendar.LocalTime, t2: Calendar.LocalTime)
    requires Calendar.ValidTime(t1) && Calendar.ValidTime(t2)
    requires first != [] && second != []
    requires Calendar.ServiceDay(t1).Some? && Calendar.ServiceDay(t1) == Calendar.ServiceDay(t2)
    requires LogFile(Calendar.ServiceDay(t1).value) !in disk.files
    ensures Save(disk, first, t1).Success?
    ensures Save(Save(disk, first, t1).value, second, t2).Success?
    ensures var file := LogFile(Calendar.ServiceDay(t1).value);
      var files := Save(Save(disk, first, t1).value, second, t2).value.files;
      && file in files
      && files[file] == [Header(Columns)] + Rows(first) + Rows(second)
      && HeaderCount(files[file]) == 1
  {
    SaveAppendsToLog(disk, first, t1);
    SaveAppendsToLog(Save(disk, first, t1).value, second, t2);
    HeaderThenRowsHasOneHeader(first, second);
  }
}
