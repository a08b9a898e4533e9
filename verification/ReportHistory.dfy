/**
  What last_scan finds after any run of report writes and index refreshes (src/storage/storage.c):
  the directory of a device holds the reports that were written, and its listing gives their number
  and the latest of them.
 */
module ReportHistory {
  import opened CText
  import opened ReportNames
  import Detection
  import LastScan
  import S = ReportStore
  import Walk

  // ---- the reports of a directory ----

  predicate IsFileName(name: string) {
    name != "" && '/' !in name
  }

  /** `path` is that of a file directly in `dir`. */
  predicate Inside(dir: cstring, path: cstring) {
    Walk.Join(dir, "") <= path && IsFileName(path[|Walk.Join(dir, "")|..])
  }

  function NameIn(dir: cstring, path: cstring): cstring
    requires Inside(dir, path)
  {
    path[|Walk.Join(dir, "")|..]
  }

  predicate IsReportOf(dir: cstring, path: cstring) {
    Inside(dir, path) && EndsWith(NameIn(dir, path), LastScan.JSON)
  }

  /** The .json reports on disk. */
  function ReportsIn(disk: S.Disk, dir: cstring): set<cstring> {
    set path | path in disk && IsReportOf(dir, path)
  }

  /** A report as the store names it. */
  predicate IsWritten(r: LastScan.Report) {
    IsStamp(r.stamp) && '/' !in r.id && '\\' !in r.id
  }

  function NameOf(r: LastScan.Report, extension: cstring): cstring
    requires IsStamp(r.stamp)
  {
    CompactIsPlain(r.stamp);
    Compact(r.stamp) + "-" + r.id + "." + extension
  }

  lemma CompactIsPlain(t: Stamp)
    requires IsStamp(t)
    ensures NUL !in Compact(t) && '/' !in Compact(t)
  {
    assert forall n: nat | n < 100 :: NUL !in Two(n) && '/' !in Two(n);
  }

  lemma NameIsName(r: LastScan.Report)
    requires IsStamp(r.stamp)
    ensures LastScan.IsName(NameOf(r, "json"), r)
  {
    hide Compact;
    assert Compact(r.stamp) + "-" + r.id + "." + "json" == Compact(r.stamp) + "-" + r.id + LastScan.JSON;
  }

  function PathOf(dir: cstring, r: LastScan.Report): cstring
    requires IsStamp(r.stamp)
  {
    Walk.Join(dir, NameOf(r, "json"))
  }

  /** Every .json file of the directory has the name of a report. */
  ghost predicate OnlyReports(disk: S.Disk, dir: cstring) {
    forall path | path in disk && IsReportOf(dir, path) :: exists r: LastScan.Report :: LastScan.IsName(NameIn(dir, path), r)
  }

  // ---- listings ----

  ghost predicate HasFile(entries: seq<Detection.Entry>, name: cstring) {
    exists i | 0 <= i < |entries| :: entries[i].name == name && !entries[i].isDirectory
  }

  /** `entries` lists exactly the files of `dir` on `disk`, each name once, among any directories. */
  ghost predicate Lists(disk: S.Disk, dir: cstring, entries: seq<Detection.Entry>) {
    && (forall i | 0 <= i < |entries| :: IsFileName(entries[i].name))
    && (forall i, j | 0 <= i < j < |entries| :: entries[i].name != entries[j].name)
    && (forall name: cstring | IsFileName(name) :: HasFile(entries, name) <==> Walk.Join(dir, name) in disk)
  }

  lemma JoinIs(dir: cstring, name: cstring)
    ensures Walk.Join(dir, name) == Walk.Join(dir, "") + name
  {
  }

  lemma JoinedIsInside(dir: cstring, name: cstring)
    requires IsFileName(name)
    ensures Inside(dir, Walk.Join(dir, name)) && NameIn(dir, Walk.Join(dir, name)) == name
  {
    JoinIs(dir, name);
    assert (Walk.Join(dir, "") + name)[|Walk.Join(dir, "")|..] == name;
  }

  /** The paths of the counted names. */
  function PathsOf(dir: cstring, names: seq<cstring>): set<cstring> {
    set i | 0 <= i < |names| :: Walk.Join(dir, names[i])
  }

  lemma PathsSnoc(dir: cstring, names: seq<cstring>, name: cstring)
    ensures PathsOf(dir, names + [name]) == PathsOf(dir, names) + {Walk.Join(dir, name)}
  {
    hide Walk.Join;
    var all := names + [name];
    forall p | p in PathsOf(dir, names) ensures p in PathsOf(dir, all) {
      var i :| 0 <= i < |names| && Walk.Join(dir, names[i]) == p;
      assert all[i] == names[i];
    }
    assert all[|names|] == name;
  }

  lemma SamePath(dir: cstring, a: cstring, b: cstring)
    requires Walk.Join(dir, a) == Walk.Join(dir, b)
    ensures a == b
  {
    JoinIs(dir, a);
    JoinIs(dir, b);
    assert (Walk.Join(dir, "") + a)[|Walk.Join(dir, "")|..] == a;
    assert (Walk.Join(dir, "") + b)[|Walk.Join(dir, "")|..] == b;
  }

  lemma {:induction false} DistinctPaths(dir: cstring, names: seq<cstring>)
    requires forall i, j | 0 <= i < j < |names| :: names[i] != names[j]
    ensures |PathsOf(dir, names)| == |names|
    decreases |names|
  {
    hide Walk.Join, PathsOf;
    if names == [] {
      NoPaths(dir);
    } else {
      var n := |names| - 1;
      DistinctPaths(dir, names[..n]);
      PathsSnoc(dir, names[..n], names[n]);
      NewPath(dir, names[..n], names[n]);
      assert names == names[..n] + [names[n]];
    }
  }

  lemma NoPaths(dir: cstring)
    ensures PathsOf(dir, []) == {}
  {
  }

  lemma NewPath(dir: cstring, names: seq<cstring>, name: cstring)
    requires name !in names
    ensures Walk.Join(dir, name) !in PathsOf(dir, names)
  {
    hide Walk.Join;
    if Walk.Join(dir, name) in PathsOf(dir, names) {
      var i :| 0 <= i < |names| && Walk.Join(dir, names[i]) == Walk.Join(dir, name);
      SamePath(dir, names[i], name);
    }
  }

  /** The counted names are those of the listed reports, each once. */
  lemma {:induction false} NamesAre(entries: seq<Detection.Entry>)
    requires forall i, j | 0 <= i < j < |entries| :: entries[i].name != entries[j].name
    ensures var names := LastScan.Names(entries);
            && (forall i, j | 0 <= i < j < |names| :: names[i] != names[j])
            && (forall name: cstring :: name in names <==> HasFile(entries, name) && EndsWith(name, LastScan.JSON))
    decreases |entries|
  {
    hide EndsWith;
    if entries != [] {
      var n := |entries| - 1;
      NamesAre(entries[..n]);
      assert entries == entries[..n] + [entries[n]];
      forall name: cstring ensures name in LastScan.Names(entries) <==> HasFile(entries, name) && EndsWith(name, LastScan.JSON) {
        HasFileSnoc(entries[..n], entries[n], name);
      }
      forall name: cstring | name in LastScan.Names(entries[..n]) ensures name != entries[n].name {
        assert HasFile(entries[..n], name);
        var i :| 0 <= i < n && entries[..n][i].name == name;
      }
    }
  }

  lemma HasFileSnoc(entries: seq<Detection.Entry>, e: Detection.Entry, name: cstring)
    ensures HasFile(entries + [e], name) <==> HasFile(entries, name) || (e.name == name && !e.isDirectory)
  {
    var all := entries + [e];
    if HasFile(entries, name) {
      var i :| 0 <= i < |entries| && entries[i].name == name && !entries[i].isDirectory;
      assert all[i] == entries[i];
    }
    if e.name == name && !e.isDirectory {
      assert all[|entries|] == e;
    }
  }

  lemma PathsAreReports(disk: S.Disk, dir: cstring, entries: seq<Detection.Entry>)
    requires Lists(disk, dir, entries)
    ensures PathsOf(dir, LastScan.Names(entries)) == ReportsIn(disk, dir)
  {
    hide EndsWith, IsFileName, LastScan.Names;
    var names := LastScan.Names(entries);
    NamesAre(entries);
    forall path | path in PathsOf(dir, names) ensures path in ReportsIn(disk, dir) {
      var i :| 0 <= i < |names| && Walk.Join(dir, names[i]) == path;
      assert names[i] in names && HasFile(entries, names[i]);
      JoinedIsInside(dir, names[i]);
    }
    forall path | path in ReportsIn(disk, dir) ensures path in PathsOf(dir, names) {
      var name := NameIn(dir, path);
      JoinIs(dir, name);
      assert Walk.Join(dir, name) == path;
      assert HasFile(entries, name);
      assert name in names;
    }
  }

  // ---- the last scan ----

  /** No report on disk is later. */
  ghost predicate IsLatest(disk: S.Disk, dir: cstring, r: LastScan.Report) {
    && IsStamp(r.stamp) && PathOf(dir, r) in ReportsIn(disk, dir)
    && forall other: LastScan.Report | IsStamp(other.stamp) && PathOf(dir, other) in ReportsIn(disk, dir) ::
         !Earlier(r.stamp, other.stamp)
  }

  /** `last` is what the reports on disk say: their number, and a scan no other is later than. */
  ghost predicate Agrees(disk: S.Disk, dir: cstring, last: LastScan.Last) {
    if ReportsIn(disk, dir) == {} then last == LastScan.Last("", "", 0, false)
    else exists r: LastScan.Report ::
      && IsLatest(disk, dir, r)
      && last.found && last.reportCount == |ReportsIn(disk, dir)| && last.scannedAt == Iso(r.stamp)
      && (|r.id| < 64 ==> last.scanId == r.id)
      && (|r.id| >= 64 ==> last.scanId == "")
  }

  lemma ReportPathIs(dir: cstring, name: cstring, r: LastScan.Report)
    requires LastScan.IsName(name, r)
    ensures PathOf(dir, r) == Walk.Join(dir, name)
  {
    hide Compact;
    NameIsName(r);
  }

  /** Whatever the order of the listing, last_scan finds as many reports as there are, and the latest. */
  lemma ListingAgrees(disk: S.Disk, dir: cstring, entries: seq<Detection.Entry>)
    requires OnlyReports(disk, dir) && Lists(disk, dir, entries)
    ensures Agrees(disk, dir, LastScan.LastOf(LastScan.Names(entries)))
  {
    hide *;
    var names := LastScan.Names(entries);
    ListedNames(disk, dir, entries);
    if names == [] {
      NothingListed(disk, dir);
    } else {
      LastScan.NewestIsGreatest(names);
      var k :| 0 <= k < |names| && names[k] == LastScan.Newest(names);
      var r := NamedBy(disk, dir, names, k);
      LatestIs(disk, dir, names, k, r);
      LatestAgrees(disk, dir, names, k, r);
    }
  }

  lemma ListedNames(disk: S.Disk, dir: cstring, entries: seq<Detection.Entry>)
    requires Lists(disk, dir, entries)
    ensures var names := LastScan.Names(entries);
            PathsOf(dir, names) == ReportsIn(disk, dir) && |names| == |ReportsIn(disk, dir)|
  {
    hide LastScan.Names, HasFile, PathsOf, ReportsIn;
    NamesAre(entries);
    PathsAreReports(disk, dir, entries);
    DistinctPaths(dir, LastScan.Names(entries));
  }

  lemma NothingListed(disk: S.Disk, dir: cstring)
    requires |ReportsIn(disk, dir)| == 0
    ensures Agrees(disk, dir, LastScan.LastOf([]))
  {
    hide ReportsIn;
  }

  lemma LatestAgrees(disk: S.Disk, dir: cstring, names: seq<cstring>, k: nat, r: LastScan.Report)
    requires |names| == |ReportsIn(disk, dir)| && k < |names| && names[k] == LastScan.Newest(names)
    requires IsLatest(disk, dir, r) && LastScan.IsName(names[k], r)
    ensures Agrees(disk, dir, LastScan.LastOf(names))
  {
    hide ReportsIn, IsLatest, LastScan.IsName, LastScan.Newest, LastScan.Described, Iso;
    IsNameStamp(names[k], r);
    LastScan.DescribedName(names[k], r, |names|);
  }

  lemma NamedBy(disk: S.Disk, dir: cstring, names: seq<cstring>, k: nat) returns (r: LastScan.Report)
    requires OnlyReports(disk, dir) && k < |names| && PathsOf(dir, names) == ReportsIn(disk, dir)
    ensures LastScan.IsName(names[k], r)
  {
    hide EndsWith, LastScan.IsName;
    var path := Walk.Join(dir, names[k]);
    assert path in PathsOf(dir, names);
    assert path in ReportsIn(disk, dir);
    JoinIs(dir, names[k]);
    assert NameIn(dir, path) == names[k];
    r :| LastScan.IsName(NameIn(dir, path), r);
  }

  lemma LatestIs(disk: S.Disk, dir: cstring, names: seq<cstring>, k: nat, r: LastScan.Report)
    requires PathsOf(dir, names) == ReportsIn(disk, dir) && k < |names| && LastScan.IsName(names[k], r)
    requires forall i | 0 <= i < |names| :: !Less(names[k], names[i])
    ensures IsLatest(disk, dir, r)
  {
    hide EndsWith, Earlier, Inside, IsFileName, Less, LastScan.IsName, ReportsIn, Compact, Walk.Join;
    IsNameStamp(names[k], r);
    ReportPathIs(dir, names[k], r);
    assert PathOf(dir, r) in PathsOf(dir, names);
    forall other: LastScan.Report | IsStamp(other.stamp) && PathOf(dir, other) in ReportsIn(disk, dir)
      ensures !Earlier(r.stamp, other.stamp)
    {
      var i :| 0 <= i < |names| && Walk.Join(dir, names[i]) == PathOf(dir, other);
      NameIsName(other);
      SamePath(dir, names[i], NameOf(other, "json"));
      if Earlier(r.stamp, other.stamp) {
        LastScan.NamesFollowTime(names[k], r, names[i], other);
      }
    }
  }

  lemma IsNameStamp(name: cstring, r: LastScan.Report)
    requires LastScan.IsName(name, r)
    ensures IsStamp(r.stamp)
  {
  }

  // ---- runs of the store ----

  /** A report written for a device, or the index refreshed. */
  datatype Event =
    | Write(device: cstring, report: LastScan.Report, extension: cstring, content: string)
    | Refresh(content: string)

  /** An event, how its file operations go, and where in it the process is stopped, if it is. */
  datatype Step = Step(event: Event, host: S.Host, ops: nat, stop: Option<nat>)

  function DirOf(root: cstring, device: cstring): cstring {
    Walk.Join(Walk.Join(root, "scans"), device)
  }

  /** A timestamp and an id that the report's name holds without being cut, and a path with room to spare. */
  predicate Fits(root: cstring, e: Event) {
    match e
    case Write(device, r, extension, _) =>
      && IsWritten(r) && |r.id| < S.FILENAME_MAX - 22 && (extension == "json" || extension == "csv")
      && |Walk.Join(DirOf(root, device), NameOf(r, extension))| < S.PATH_MAX - 1
    case Refresh(_) => |Walk.Join(root, "index.json")| + 4 < S.PATH_MAX
  }

  function CallOf(root: cstring, e: Event): S.Call
    requires Fits(root, e)
  {
    match e
    case Write(device, r, extension, content) => S.Call(Walk.Join(DirOf(root, device), NameOf(r, extension)), content)
    case Refresh(content) => S.Call(Walk.Join(root, "index.json"), content)
  }

  function AttemptOf(root: cstring, s: Step): S.Attempt
    requires Fits(root, s.event)
  {
    S.Attempt(CallOf(root, s.event), s.host, s.ops, s.stop)
  }

  predicate AllFit(root: cstring, steps: seq<Step>) {
    forall i | 0 <= i < |steps| :: Fits(root, steps[i].event)
  }

  function Attempts(root: cstring, steps: seq<Step>): seq<S.Attempt>
    requires AllFit(root, steps)
  {
    seq(|steps|, i requires 0 <= i < |steps| => AttemptOf(root, steps[i]))
  }

  // ---- the paths of a run ----

  /** snprintf and the path join give a report that fits the path it is meant to have. */
  lemma TargetIs(root: cstring, device: cstring, r: LastScan.Report, extension: cstring, content: string)
    requires Fits(root, Write(device, r, extension, content))
    ensures S.Target(root, device, r.id, CStr(Iso(r.stamp)), extension)
         == Success(CallOf(root, Write(device, r, extension, content)).path)
  {
    hide Stripped, Compact, Iso;
    StampText(r.stamp);
    var name := S.FileName(Stripped(CStr(Iso(r.stamp))), r.id, extension);
    assert Compact(r.stamp) + "-" + r.id + "." + extension == NameOf(r, extension);
    assert name == NameOf(r, extension);
    JoinIs(Walk.Join(root, "scans"), device);
    JoinIs(DirOf(root, device), name);
  }

  lemma StampText(t: Stamp)
    requires IsStamp(t)
    ensures CStr(Iso(t)) == Iso(t) && |Stripped(Iso(t))| == 16 && Stripped(Iso(t)) == Compact(t)
  {
    hide Stripped, Compact, Iso;
    LastScan.StampText(t);
    CompactIs(t);
  }

  /** A written name is one whose time and id can be read back, exactly as long as it is not cut. */
  lemma WrittenNameIsReadable(t: Stamp, id: cstring)
    requires IsStamp(t)
    ensures LastScan.IsName(S.FileName(CStr(Stripped(Iso(t))), id, "json"), LastScan.Report(t, id))
       <==> |id| < 278
  {
    hide Stripped, Compact, Iso;
    CompactIs(t);
    CompactIsPlain(t);
    CStrOfNulFree(Compact(t));
    NameIsName(LastScan.Report(t, id));
  }

  lemma NoSlashAfter(a: string, x: string)
    requires '/' !in x
    ensures forall i | |a| <= i < |a + x| :: (a + x)[i] != '/'
  {
    forall i | |a| <= i < |a + x| ensures (a + x)[i] != '/' {
      assert (a + x)[i] == x[i - |a|];
    }
  }

  /** What follows the last '/' is one and the same. */
  lemma SameLast(a: string, x: string, b: string, y: string)
    requires a != "" && a[|a| - 1] == '/' && '/' !in x && b != "" && b[|b| - 1] == '/' && '/' !in y
    requires a + x == b + y
    ensures x == y
  {
    var path := a + x;
    NoSlashAfter(a, x);
    NoSlashAfter(b, y);
    assert path[|a| - 1] == '/' && path[|b| - 1] == '/';
    assert path[|a|..] == x && path[|b|..] == y;
  }

  lemma JoinEnds(dir: cstring)
    ensures var base := Walk.Join(dir, "");
            base != "" && base[|base| - 1] == '/'
  {
  }

  /** Whatever .json file of a directory a run writes has the name of a report. */
  lemma WritesReports(root: cstring, device: cstring, e: Event)
    requires Fits(root, e) && IsReportOf(DirOf(root, device), CallOf(root, e).path)
    ensures exists r: LastScan.Report :: LastScan.IsName(NameIn(DirOf(root, device), CallOf(root, e).path), r)
  {
    hide Compact, EndsWith;
    var dir, path := DirOf(root, device), CallOf(root, e).path;
    if e.Write? {
      var own := DirOf(root, e.device);
      var name := NameOf(e.report, e.extension);
      JoinIs(own, name);
      JoinEnds(own);
      JoinEnds(dir);
      NameIsFileName(e.report, e.extension);
      assert path == Walk.Join(dir, "") + NameIn(dir, path);
      SameLast(Walk.Join(own, ""), name, Walk.Join(dir, ""), NameIn(dir, path));
      if e.extension == "json" {
        NameIsName(e.report);
      } else {
        CsvIsNoJson(name, e.report);
      }
    } else {
      IndexIsOutside(root, device);
    }
  }

  lemma NameIsFileName(r: LastScan.Report, extension: cstring)
    requires IsStamp(r.stamp) && '/' !in r.id && '/' !in extension
    ensures IsFileName(NameOf(r, extension))
  {
    hide Compact;
    CompactIsPlain(r.stamp);
  }

  lemma CsvIsNoJson(name: cstring, r: LastScan.Report)
    requires IsStamp(r.stamp) && name == NameOf(r, "csv")
    ensures !EndsWith(name, LastScan.JSON)
  {
    hide Compact;
    assert name[|name| - 1] == 'v';
    S.EndsIn(name, LastScan.JSON);
  }

  lemma IndexIsOutside(root: cstring, device: cstring)
    ensures !Inside(DirOf(root, device), Walk.Join(root, "index.json"))
  {
    var base := Walk.Join(root, "");
    JoinIs(root, "scans");
    JoinIs(root, "index.json");
    var dir := Walk.Join(DirOf(root, device), "");
    assert dir[|base|] == 's' && Walk.Join(root, "index.json")[|base|] == 'i';
  }

  // ---- what a run keeps ----

  /** The attempts that save for a directory of reports. */
  ghost predicate KeepsNames(dir: cstring, a: S.Attempt) {
    && |a.call.path| < S.PATH_MAX - 1 && S.Reports(a.host)
    && (IsReportOf(dir, a.call.path) ==> exists r: LastScan.Report :: LastScan.IsName(NameIn(dir, a.call.path), r))
  }

  /** The save is carried through and reported as done. */
  predicate Done(disk: S.Disk, a: S.Attempt) {
    var t := S.SaveTrail(disk, a.call.path, a.call.content, a.host, a.ops);
    t.status == Fine && (a.stop.None? || |t.disks| <= a.stop.value)
  }

  /** The paths that were reported as written. */
  function DoneIn(disk: S.Disk, run: seq<S.Attempt>): set<cstring>
    decreases |run|
  {
    if run == [] then {}
    else (if Done(disk, run[0]) then {run[0].call.path} else {}) + DoneIn(S.Left(disk, run[0]), run[1..])
  }

  lemma ReportIsReportName(dir: cstring, path: cstring)
    requires IsReportOf(dir, path)
    ensures S.IsReportName(path)
  {
    var name := NameIn(dir, path);
    assert path[|path| - |name|..] == name;
    assert path[|path| - 5..] == name[|name| - 5..];
  }

  lemma LeftIs(disk: S.Disk, a: S.Attempt)
    requires |a.call.path| < S.PATH_MAX - 1 && S.Reports(a.host)
    ensures var (path, left) := (a.call.path, S.Left(disk, a));
            && S.SameBut(disk, left, {S.TempPath(path), path})
            && (path in disk && path != S.TempPath(path) ==> path in left)
            && (Done(disk, a) ==> path in left)
  {
    hide S.SaveTrail, S.TempPath;
    S.SaveKeepsOthers(disk, a.call.path, a.call.content, a.host, a.ops);
    if Done(disk, a) {
      S.SavedIsThere(disk, a.call.path, a.call.content, a.host, a.ops);
    }
  }

  /** A save of any kind, stopped anywhere: no report disappears and only reports appear. */
  lemma SaveKeepsReports(dir: cstring, disk: S.Disk, a: S.Attempt)
    requires KeepsNames(dir, a) && OnlyReports(disk, dir)
    ensures var left := S.Left(disk, a);
            && OnlyReports(left, dir) && ReportsIn(disk, dir) <= ReportsIn(left, dir)
            && (Done(disk, a) && IsReportOf(dir, a.call.path) ==> a.call.path in ReportsIn(left, dir))
  {
    hide S.Left, S.TempPath, IsReportOf, Done, NameIn, LastScan.IsName;
    var left, temp := S.Left(disk, a), S.TempPath(a.call.path);
    LeftIs(disk, a);
    TempIsOutside(dir, a.call.path);
    if IsReportOf(dir, a.call.path) {
      ReportIsReportName(dir, a.call.path);
    }
  }

  lemma TempIsOutside(dir: cstring, path: cstring)
    requires |path| < S.PATH_MAX - 1
    ensures !IsReportOf(dir, S.TempPath(path))
  {
    hide S.TempPath, IsReportOf;
    S.TempIsNoReport(path);
    if IsReportOf(dir, S.TempPath(path)) {
      ReportIsReportName(dir, S.TempPath(path));
    }
  }

  lemma {:induction false} RunKeepsReports(dir: cstring, disk: S.Disk, run: seq<S.Attempt>)
    requires (forall i | 0 <= i < |run| :: KeepsNames(dir, run[i])) && OnlyReports(disk, dir)
    ensures var end := S.RunEnd(disk, run);
            && OnlyReports(end, dir) && ReportsIn(disk, dir) <= ReportsIn(end, dir)
            && forall path | path in DoneIn(disk, run) && IsReportOf(dir, path) :: path in ReportsIn(end, dir)
    decreases |run|
  {
    hide S.Left, KeepsNames, OnlyReports, ReportsIn, IsReportOf, Done;
    if run != [] {
      SaveKeepsReports(dir, disk, run[0]);
      RunKeepsReports(dir, S.Left(disk, run[0]), run[1..]);
    }
  }

  lemma AttemptsFit(root: cstring, device: cstring, steps: seq<Step>, i: nat)
    requires AllFit(root, steps) && i < |steps| && S.Reports(steps[i].host)
    ensures var a := Attempts(root, steps)[i];
            KeepsNames(DirOf(root, device), a) && |a.call.path| < S.PATH_MAX - 1
  {
    hide IsReportOf;
    var e := steps[i].event;
    if IsReportOf(DirOf(root, device), CallOf(root, e).path) {
      WritesReports(root, device, e);
    }
  }

  /**
    After any run of report writes and index refreshes that fit, for any devices, each stopped or
    failing anywhere, on a store whose directory held only reports: every report on disk is complete,
    none that was there or was reported as written is missing, and last_scan gives from any listing
    of the directory the number of reports and a scan that no other is later than.
   */
  lemma LastScanAfterAnyRun(root: cstring, device: cstring, disk: S.Disk, known: set<S.Call>, steps: seq<Step>,
                            entries: seq<Detection.Entry>)
    requires AllFit(root, steps) && forall i | 0 <= i < |steps| :: S.Reports(steps[i].host)
    requires S.Safe(disk, known) && OnlyReports(disk, DirOf(root, device))
    requires Lists(S.RunEnd(disk, Attempts(root, steps)), DirOf(root, device), entries)
    ensures var (dir, run) := (DirOf(root, device), Attempts(root, steps));
            var end := S.RunEnd(disk, run);
            && S.Safe(end, known + S.CallsOf(run)) && OnlyReports(end, dir)
            && ReportsIn(disk, dir) <= ReportsIn(end, dir)
            && (forall r: LastScan.Report | IsStamp(r.stamp) && '/' !in r.id && PathOf(dir, r) in DoneIn(disk, run) ::
                  PathOf(dir, r) in ReportsIn(end, dir))
            && Agrees(end, dir, LastScan.LastOf(LastScan.Names(entries)))
  {
    hide *;
    var dir, run := DirOf(root, device), Attempts(root, steps);
    RunFits(root, device, steps);
    S.RunsAreCrashSafe(disk, known, run);
    RunKeepsReports(dir, disk, run);
    ListingAgrees(S.RunEnd(disk, run), dir, entries);
    forall r: LastScan.Report | IsStamp(r.stamp) && '/' !in r.id && PathOf(dir, r) in DoneIn(disk, run)
      ensures PathOf(dir, r) in ReportsIn(S.RunEnd(disk, run), dir)
    {
      PathIsReport(dir, r);
    }
  }

  lemma PathIsReport(dir: cstring, r: LastScan.Report)
    requires IsStamp(r.stamp) && '/' !in r.id
    ensures IsReportOf(dir, PathOf(dir, r))
  {
    hide Compact;
    NameIsFileName(r, "json");
    JoinedIsInside(dir, NameOf(r, "json"));
  }

  lemma RunFits(root: cstring, device: cstring, steps: seq<Step>)
    requires AllFit(root, steps) && forall i | 0 <= i < |steps| :: S.Reports(steps[i].host)
    ensures var run := Attempts(root, steps);
            S.IsRun(run) && forall i | 0 <= i < |run| :: KeepsNames(DirOf(root, device), run[i])
  {
    hide AllFit, S.IsReportName, KeepsNames, S.Reports;
    var run := Attempts(root, steps);
    forall i | 0 <= i < |run|
      ensures KeepsNames(DirOf(root, device), run[i]) && |run[i].call.path| < S.PATH_MAX - 1 && S.Reports(run[i].host)
    {
      AttemptsFit(root, device, steps, i);
    }
  }
}
