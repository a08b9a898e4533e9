/**
  Writing reports (write_report_file in src/storage/storage.c): temporary file, then rename.  Every
  state of the disk in which the process can be stopped is recorded.
 */
module ReportStore {
  import opened CText
  import opened ReportNames
  import Walk

  const PATH_MAX := 512
  const FILENAME_MAX := 300

  /** The files of the store by path. */
  type Disk = map<cstring, string>

  /** How the n-th file operation goes: whether it succeeds, what it reports, how much it writes. */
  datatype Host = Host(ok: nat -> bool, error: nat -> Status, written: nat -> nat)

  ghost predicate Reports(host: Host) {
    forall n :: host.error(n) != Fine
  }

  /** The disks a sequence of operations passes through, how it ends, and how many operations it took. */
  datatype Trail = Trail(disks: seq<Disk>, status: Status, ops: nat)

  function Then(disk: Disk, rest: Trail): Trail {
    rest.(disks := [disk] + rest.disks)
  }

  function Last(before: Disk, disks: seq<Disk>): Disk {
    if disks == [] then before else disks[|disks| - 1]
  }

  function End(before: Disk, t: Trail): Disk {
    Last(before, t.disks)
  }

  // ---- file operations ----

  /** The writing loop, with `done` characters already in the file, and the final sync. */
  function RestTrail(disk: Disk, path: cstring, content: string, done: nat, host: Host, ops: nat): Trail
    requires done <= |content|
    decreases |content| - done
  {
    if !host.ok(ops) then Trail([], host.error(ops), ops + 1)
    else if done == |content| then Trail([], Fine, ops + 1)
    else
      var written := if host.written(ops) < |content| - done then host.written(ops) else |content| - done;
      if written == 0 then Trail([], IoError, ops + 1)
      else
        var next := disk[path := content[..done + written]];
        Then(next, RestTrail(next, path, content, done + written, host, ops + 1))
  }

  /** usbs_platform_write_file: opening truncates. */
  function FileTrail(disk: Disk, path: cstring, content: string, host: Host, ops: nat): Trail {
    if !host.ok(ops) then Trail([], host.error(ops), ops + 1)
    else
      var emptied := disk[path := ""];
      Then(emptied, RestTrail(emptied, path, content, 0, host, ops + 1))
  }

  /** usbs_platform_replace_file: a rename is atomic. */
  function Rename(disk: Disk, from: cstring, to: cstring): Disk
    requires from in disk
  {
    if from == to then disk else (disk - {from})[to := disk[from]]
  }

  /** Clearing up after a failure; whether that works is not looked at. */
  function DiscardTrail(disk: Disk, path: cstring, status: Status, host: Host, ops: nat): Trail {
    Trail(if host.ok(ops) then [disk - {path}] else [], status, ops + 1)
  }

  function TempPath(final: cstring): cstring {
    Truncated(final + ".tmp", PATH_MAX)
  }

  function PublishTrail(disk: Disk, temp: cstring, final: cstring, host: Host, ops: nat): Trail
    requires temp in disk
  {
    if host.ok(ops) then Trail([Rename(disk, temp, final)], Fine, ops + 1)
    else DiscardTrail(disk, temp, host.error(ops), host, ops + 1)
  }

  /** Writing `content` under `final`: write the temporary file, then rename it. */
  function SaveTrail(disk: Disk, final: cstring, content: string, host: Host, ops: nat): Trail {
    var temp := TempPath(final);
    var w := FileTrail(disk, temp, content, host, ops);
    var written := End(disk, w);
    var last :=
      if w.status == Fine && temp in written then PublishTrail(written, temp, final, host, w.ops)
      else DiscardTrail(written, temp, w.status, host, w.ops);
    Trail(w.disks + last.disks, last.status, last.ops)
  }

  // ---- safety ----

  /** One call asking for `content` under `path`. */
  datatype Call = Call(path: cstring, content: string)

  predicate IsReportName(path: cstring) {
    EndsWith(path, ".json") || EndsWith(path, ".csv")
  }

  /** Every report on the disk is the complete content of some call for that path. */
  ghost predicate Safe(disk: Disk, calls: set<Call>) {
    forall path | path in disk && IsReportName(path) :: Call(path, disk[path]) in calls
  }

  ghost predicate AllSafe(disks: seq<Disk>, calls: set<Call>) {
    forall i | 0 <= i < |disks| :: Safe(disks[i], calls)
  }

  lemma SafeElsewhere(disk: Disk, path: cstring, content: string, calls: set<Call>)
    requires Safe(disk, calls) && (IsReportName(path) ==> Call(path, content) in calls)
    ensures Safe(disk[path := content], calls)
  {
    hide IsReportName;
  }

  lemma {:induction false} RestIsSafe(disk: Disk, path: cstring, content: string, done: nat, host: Host, ops: nat,
                                      calls: set<Call>)
    requires done <= |content| && Safe(disk, calls) && !IsReportName(path)
    requires path in disk && disk[path] == content[..done]
    ensures var t := RestTrail(disk, path, content, done, host, ops);
            && AllSafe(t.disks, calls) && Safe(End(disk, t), calls)
            && path in End(disk, t)
            && (t.status == Fine && Reports(host) ==> End(disk, t)[path] == content)
    decreases |content| - done
  {
    hide IsReportName, Safe;
    if host.ok(ops) && done < |content| {
      var written := if host.written(ops) < |content| - done then host.written(ops) else |content| - done;
      if written > 0 {
        var next := disk[path := content[..done + written]];
        SafeElsewhere(disk, path, content[..done + written], calls);
        RestIsSafe(next, path, content, done + written, host, ops + 1, calls);
        EndOfThen(disk, next, RestTrail(next, path, content, done + written, host, ops + 1));
      }
    } else {
      assert content[..|content|] == content;
    }
  }

  lemma EndOfThen(before: Disk, disk: Disk, rest: Trail)
    ensures End(before, Then(disk, rest)) == End(disk, rest)
  {
  }

  lemma FileIsSafe(disk: Disk, path: cstring, content: string, host: Host, ops: nat, calls: set<Call>)
    requires Safe(disk, calls) && !IsReportName(path)
    ensures var t := FileTrail(disk, path, content, host, ops);
            && AllSafe(t.disks, calls) && Safe(End(disk, t), calls)
            && (t.status == Fine && Reports(host) ==> path in End(disk, t) && End(disk, t)[path] == content)
  {
    hide IsReportName, Safe;
    if host.ok(ops) {
      SafeElsewhere(disk, path, "", calls);
      var emptied := disk[path := ""];
      assert content[..0] == "";
      RestIsSafe(emptied, path, content, 0, host, ops + 1, calls);
      EndOfThen(disk, emptied, RestTrail(emptied, path, content, 0, host, ops + 1));
    }
  }

  lemma RemovingIsSafe(disk: Disk, path: cstring, calls: set<Call>)
    requires Safe(disk, calls)
    ensures Safe(disk - {path}, calls)
  {
    hide IsReportName;
  }

  lemma LastIsSafe(disk: Disk, temp: cstring, final: cstring, status: Status, host: Host, ops: nat, calls: set<Call>)
    requires Safe(disk, calls)
    ensures AllSafe(DiscardTrail(disk, temp, status, host, ops).disks, calls)
    ensures temp in disk && Call(final, disk[temp]) in calls ==> AllSafe(PublishTrail(disk, temp, final, host, ops).disks, calls)
  {
    hide IsReportName, Safe;
    RemovingIsSafe(disk, temp, calls);
    if temp in disk && Call(final, disk[temp]) in calls {
      SafeElsewhere(disk - {temp}, final, disk[temp], calls);
    }
  }

  lemma AllSafeConcat(a: seq<Disk>, b: seq<Disk>, calls: set<Call>)
    requires AllSafe(a, calls) && AllSafe(b, calls)
    ensures AllSafe(a + b, calls)
  {
    hide Safe;
  }

  /** The temporary file is no report, unless cutting it to the path limit leaves the report's own path. */
  lemma TempIsNoReport(final: cstring)
    requires |final| < PATH_MAX
    ensures |final| != PATH_MAX - 1 ==> !IsReportName(TempPath(final))
    ensures |final| == PATH_MAX - 1 ==> TempPath(final) == final
  {
    var temp := TempPath(final);
    if |final| < PATH_MAX - 1 {
      var k := |temp| - |final|;
      assert temp == final + ".tmp"[..k];
      assert 1 <= k <= 4 && temp[|temp| - 1] == ".tmp"[k - 1];
      assert temp[|temp| - 1] != 'n' && temp[|temp| - 1] != 'v';
      EndsIn(temp, ".json");
      EndsIn(temp, ".csv");
    } else {
      assert (final + ".tmp")[..PATH_MAX - 1] == final;
    }
  }

  lemma EndsIn(s: string, suffix: string)
    requires s != "" && suffix != "" && s[|s| - 1] != suffix[|suffix| - 1]
    ensures !EndsWith(s, suffix)
  {
    if |suffix| <= |s| {
      assert s[|s| - |suffix|..][|suffix| - 1] == s[|s| - 1];
    }
  }

  lemma SaveIsSafeWith(disk: Disk, final: cstring, content: string, host: Host, ops: nat, calls: set<Call>)
    requires Safe(disk, calls) && Call(final, content) in calls && Reports(host)
    requires !IsReportName(TempPath(final))
    ensures AllSafe(SaveTrail(disk, final, content, host, ops).disks, calls)
  {
    hide IsReportName, Safe, AllSafe, TempPath, FileTrail, PublishTrail, DiscardTrail;
    var temp := TempPath(final);
    var w := FileTrail(disk, temp, content, host, ops);
    FileIsSafe(disk, temp, content, host, ops, calls);
    var written := End(disk, w);
    LastIsSafe(written, temp, final, w.status, host, w.ops, calls);
    var last :=
      if w.status == Fine && temp in written then PublishTrail(written, temp, final, host, w.ops)
      else DiscardTrail(written, temp, w.status, host, w.ops);
    AllSafeConcat(w.disks, last.disks, calls);
  }

  /** An empty file is complete as soon as it is there. */
  lemma EmptyIsSafe(disk: Disk, final: cstring, host: Host, ops: nat, calls: set<Call>)
    requires Safe(disk, calls) && Call(final, "") in calls && TempPath(final) == final
    ensures AllSafe(SaveTrail(disk, final, "", host, ops).disks, calls)
  {
    hide IsReportName, Safe, TempPath;
    SafeElsewhere(disk, final, "", calls);
    RemovingIsSafe(disk, final, calls);
    RemovingIsSafe(disk[final := ""], final, calls);
  }

  /** A host on which everything works and every write takes all it is given. */
  const WILLING := Host((n: nat) => true, (n: nat) => IoError, (n: nat) => PATH_MAX)

  lemma TruncationShows(final: cstring, content: string)
    requires TempPath(final) == final && IsReportName(final) && content != ""
    ensures !AllSafe(SaveTrail(map[], final, content, WILLING, 0).disks, {Call(final, content)})
  {
    hide IsReportName;
    var disks := SaveTrail(map[], final, content, WILLING, 0).disks;
    assert disks[0] == map[final := ""];
    assert disks[0][final] == "" && final in disks[0];
    assert !Safe(disks[0], {Call(final, content)});
  }

  /**
    What a caller can check before saving: the report's path leaves room for a temporary path of its
    own, or is no report's, or the content is empty.
   */
  predicate HasTempOfItsOwn(c: Call) {
    |c.path| < 511 || !IsReportName(c.path) || c.content == ""
  }

  lemma SaveIsSafe(disk: Disk, c: Call, host: Host, ops: nat, calls: set<Call>)
    requires |c.path| < PATH_MAX && HasTempOfItsOwn(c)
    requires Safe(disk, calls) && c in calls && Reports(host)
    ensures AllSafe(SaveTrail(disk, c.path, c.content, host, ops).disks, calls)
  {
    hide IsReportName, Safe, AllSafe, SaveTrail, TempPath;
    TempIsNoReport(c.path);
    if |c.path| < PATH_MAX - 1 || !IsReportName(c.path) {
      SaveIsSafeWith(disk, c.path, c.content, host, ops, calls);
    } else {
      EmptyIsSafe(disk, c.path, host, ops, calls);
    }
  }

  /**
    Crash safety, exactly.  Whatever reports and leftovers are on the disk, whatever fails and
    wherever the process stops, no report on disk is anything but the complete content of some call,
    unless the path fills the path buffer to its last character; then the temporary path is the
    report's own and its content is seen growing.
   */
  lemma CrashSafeIff(c: Call)
    requires |c.path| < PATH_MAX
    ensures (forall disk: Disk, calls: set<Call>, host: Host, ops: nat |
               Safe(disk, calls) && c in calls && Reports(host) ::
               AllSafe(SaveTrail(disk, c.path, c.content, host, ops).disks, calls))
       <==> HasTempOfItsOwn(c)
  {
    hide IsReportName, Safe, AllSafe, SaveTrail, TempPath;
    if HasTempOfItsOwn(c) {
      forall disk: Disk, calls: set<Call>, host: Host, ops: nat | Safe(disk, calls) && c in calls && Reports(host)
        ensures AllSafe(SaveTrail(disk, c.path, c.content, host, ops).disks, calls)
      {
        SaveIsSafe(disk, c, host, ops, calls);
      }
    } else {
      TempIsNoReport(c.path);
      TruncationShows(c.path, c.content);
      NothingIsSafe({c});
      assert Reports(WILLING);
    }
  }

  // ---- runs ----

  /**
    One save after `ops` other file operations, and where in it the process is stopped, if it is:
    after how many states of the disk.
   */
  datatype Attempt = Attempt(call: Call, host: Host, ops: nat, stop: Option<nat>)

  function Passed(disk: Disk, a: Attempt): seq<Disk> {
    var disks := SaveTrail(disk, a.call.path, a.call.content, a.host, a.ops).disks;
    if a.stop.Some? && a.stop.value < |disks| then disks[..a.stop.value] else disks
  }

  /** The disk an attempt leaves for whatever is started next. */
  function Left(disk: Disk, a: Attempt): Disk {
    Last(disk, Passed(disk, a))
  }

  /** Every disk of a run: each attempt goes on with what the one before it left. */
  function RunDisks(disk: Disk, run: seq<Attempt>): seq<Disk>
    decreases |run|
  {
    if run == [] then [] else Passed(disk, run[0]) + RunDisks(Left(disk, run[0]), run[1..])
  }

  function RunEnd(disk: Disk, run: seq<Attempt>): Disk
    decreases |run|
  {
    if run == [] then disk else RunEnd(Left(disk, run[0]), run[1..])
  }

  function CallsOf(run: seq<Attempt>): set<Call> {
    set i | 0 <= i < |run| :: run[i].call
  }

  ghost predicate IsRun(run: seq<Attempt>) {
    forall i | 0 <= i < |run| ::
      |run[i].call.path| < PATH_MAX && HasTempOfItsOwn(run[i].call) && Reports(run[i].host)
  }

  lemma PassedIsSafe(disk: Disk, a: Attempt, calls: set<Call>)
    requires |a.call.path| < PATH_MAX && HasTempOfItsOwn(a.call) && Reports(a.host)
    requires Safe(disk, calls) && a.call in calls
    ensures AllSafe(Passed(disk, a), calls) && Safe(Left(disk, a), calls)
  {
    hide Safe, SaveTrail, HasTempOfItsOwn;
    SaveIsSafe(disk, a.call, a.host, a.ops, calls);
    var disks := SaveTrail(disk, a.call.path, a.call.content, a.host, a.ops).disks;
    assert forall i | 0 <= i < |Passed(disk, a)| :: Passed(disk, a)[i] == disks[i];
  }

  lemma {:induction false} RunIsSafeWith(disk: Disk, run: seq<Attempt>, calls: set<Call>)
    requires IsRun(run) && Safe(disk, calls) && forall i | 0 <= i < |run| :: run[i].call in calls
    ensures AllSafe(RunDisks(disk, run), calls) && Safe(RunEnd(disk, run), calls)
    decreases |run|
  {
    hide Safe, AllSafe, Passed, Left, HasTempOfItsOwn;
    if run == [] {
      NoDisks(calls);
    } else {
      PassedIsSafe(disk, run[0], calls);
      RunIsSafeWith(Left(disk, run[0]), run[1..], calls);
      AllSafeConcat(Passed(disk, run[0]), RunDisks(Left(disk, run[0]), run[1..]), calls);
    }
  }

  lemma NoDisks(calls: set<Call>)
    ensures AllSafe([], calls)
  {
  }

  /**
    Crash safety of runs: any number of saves, each stopped anywhere or failing anywhere, each going
    on with the reports, the half-written temporary files and the leftovers of all before it.  No
    disk ever holds an incomplete report.
   */
  lemma RunsAreCrashSafe(disk: Disk, known: set<Call>, run: seq<Attempt>)
    requires Safe(disk, known) && IsRun(run)
    ensures AllSafe(RunDisks(disk, run), known + CallsOf(run)) && Safe(RunEnd(disk, run), known + CallsOf(run))
  {
    hide Safe, AllSafe, RunDisks, RunEnd, IsRun;
    MoreCalls(disk, known, CallsOf(run));
    RunIsSafeWith(disk, run, known + CallsOf(run));
  }

  lemma NothingIsSafe(calls: set<Call>)
    ensures Safe(map[], calls)
  {
  }

  /** More calls do not make a disk unsafe. */
  lemma MoreCalls(disk: Disk, calls: set<Call>, more: set<Call>)
    requires Safe(disk, calls)
    ensures Safe(disk, calls + more)
  {
    hide IsReportName;
  }

  lemma AllMoreCalls(disks: seq<Disk>, calls: set<Call>, more: set<Call>)
    requires AllSafe(disks, calls)
    ensures AllSafe(disks, calls + more)
  {
    hide Safe;
    forall i | 0 <= i < |disks| ensures Safe(disks[i], calls + more) {
      MoreCalls(disks[i], calls, more);
    }
  }

  // ---- what a save leaves alone ----

  /** The same files with the same contents, but for those at `paths`. */
  ghost predicate SameBut(a: Disk, b: Disk, paths: set<cstring>) {
    forall path | path !in paths :: (path in a <==> path in b) && (path in a ==> a[path] == b[path])
  }

  ghost predicate AllSameBut(disk: Disk, disks: seq<Disk>, paths: set<cstring>) {
    forall i | 0 <= i < |disks| :: SameBut(disk, disks[i], paths)
  }

  lemma {:induction false} RestKeepsOthers(start: Disk, disk: Disk, path: cstring, content: string, done: nat,
                                           host: Host, ops: nat)
    requires done <= |content| && SameBut(start, disk, {path})
    ensures var t := RestTrail(disk, path, content, done, host, ops);
            AllSameBut(start, t.disks, {path}) && SameBut(start, End(disk, t), {path})
    decreases |content| - done
  {
    hide RestTrail;
    RestStep(disk, path, content, done, host, ops);
    var written := if host.written(ops) < |content| - done then host.written(ops) else |content| - done;
    if host.ok(ops) && done < |content| && written > 0 {
      RestKeepsOthers(start, disk[path := content[..done + written]], path, content, done + written, host, ops + 1);
    }
  }

  lemma FileKeepsOthers(disk: Disk, path: cstring, content: string, host: Host, ops: nat)
    ensures var t := FileTrail(disk, path, content, host, ops);
            AllSameBut(disk, t.disks, {path}) && SameBut(disk, End(disk, t), {path})
  {
    hide RestTrail;
    if host.ok(ops) {
      var emptied := disk[path := ""];
      RestKeepsOthers(disk, emptied, path, content, 0, host, ops + 1);
      EndOfThen(disk, emptied, RestTrail(emptied, path, content, 0, host, ops + 1));
    }
  }

  /**
    A save changes no file but the temporary one and its own; its own is there throughout if it was
    before, and keeps its content when the save fails.
   */
  lemma SaveKeepsOthers(disk: Disk, final: cstring, content: string, host: Host, ops: nat)
    requires Reports(host)
    ensures var t := SaveTrail(disk, final, content, host, ops);
            && AllSameBut(disk, t.disks, {TempPath(final), final})
            && SameBut(disk, End(disk, t), {TempPath(final), final})
            && (t.status != Fine ==> SameBut(disk, End(disk, t), {TempPath(final)}))
            && (final in disk && final != TempPath(final) ==>
                  forall i | 0 <= i < |t.disks| :: final in t.disks[i])
  {
    hide FileTrail, TempPath;
    FileKeepsOthers(disk, TempPath(final), content, host, ops);
  }

  // ---- the store ----

  function JoinPath(a: cstring, b: cstring): Result<cstring> {
    if |Walk.Join(a, b)| < PATH_MAX then Success(Walk.Join(a, b)) else Failure(NoMemory)
  }

  /** <root>/scans/<device>. */
  function DeviceDir(root: cstring, device: cstring): Result<cstring> {
    var scans := JoinPath(root, "scans");
    if scans.Failure? then scans else JoinPath(scans.value, device)
  }

  /** The name of a report; snprintf cuts it to its buffer. */
  function FileName(compact: cstring, scanId: cstring, extension: cstring): cstring {
    Truncated(compact + "-" + scanId + "." + extension, FILENAME_MAX)
  }

  /** The report's path, or why there is none; the directory is made between the two. */
  function FinalPath(dir: cstring, scanId: cstring, timestamp: cstring, extension: cstring): Result<cstring> {
    if |Stripped(timestamp)| != 16 then Failure(InvalidArg)
    else JoinPath(dir, FileName(Stripped(timestamp), scanId, extension))
  }

  /** The report's path, or why nothing is written. */
  function Target(root: cstring, device: cstring, scanId: cstring, timestamp: cstring, extension: cstring): Result<cstring> {
    if '\\' in scanId || '/' in scanId then Failure(InvalidArg)
    else
      var dir := DeviceDir(root, device);
      if dir.Failure? then dir else FinalPath(dir.value, scanId, timestamp, extension)
  }

  /** write_report_file: the path is settled, but for making the directory, before anything is written. */
  function WriteTrail(disk: Disk, root: cstring, device: cstring, scanId: cstring, timestamp: cstring, extension: cstring,
                      content: string, host: Host, ops: nat): Trail
  {
    var target := Target(root, device, scanId, timestamp, extension);
    if '\\' in scanId || '/' in scanId || DeviceDir(root, device).Failure? then Trail([], target.error, ops)
    else if !host.ok(ops) then Trail([], host.error(ops), ops + 1)
    else if target.Failure? then Trail([], target.error, ops + 1)
    else SaveTrail(disk, target.value, content, host, ops + 1)
  }

  class Store {
    const root: cstring
    const host: Host
    var files: Disk
    var ops: nat
    /** The states of the disk so far, in order: the process may be stopped in any of them. */
    ghost var history: seq<Disk>
    ghost var calls: set<Call>
    /** The calls whose reports were there when the store was opened. */
    ghost const known: set<Call>

    ghost predicate CallsFit()
      reads this
    {
      forall c | c in calls :: HasTempOfItsOwn(c)
    }

    /** As long as the calls fit, no state the disk was ever in holds an incomplete report. */
    ghost predicate Valid()
      reads this
    {
      Reports(host) && (CallsFit() ==> Safe(files, known + calls) && AllSafe(history, known + calls))
    }

    /** Opens the store on whatever is there, such as what a process left that was stopped in a save. */
    constructor (r: cstring, h: Host, disk: Disk, ghost before: set<Call>)
      requires Reports(h) && Safe(disk, before)
      ensures Valid() && root == r && host == h && files == disk && known == before && calls == {} && history == []
    {
      root, host, files, ops := r, h, disk, 0;
      history, calls, known := [], {}, before;
      new;
      assert known + calls == before;
    }

    method Put(path: cstring, content: string)
      modifies this`files, this`history
      ensures files == old(files)[path := content] && history == old(history) + [files]
    {
      files := files[path := content];
      history := history + [files];
    }

    /** usbs_platform_write_file. */
    method WriteFile(path: cstring, content: string) returns (status: Status)
      modifies this`files, this`history, this`ops
      ensures var t := FileTrail(old(files), path, content, host, old(ops));
              && files == End(old(files), t) && history == old(history) + t.disks
              && status == t.status && ops == t.ops
    {
      hide RestTrail;
      ops := ops + 1;
      if !host.ok(ops - 1) {
        return host.error(ops - 1);
      }
      Put(path, "");
      ghost var rest := RestTrail(files, path, content, 0, host, ops);
      EndOfThen(old(files), files, rest);
      assert history + rest.disks == old(history) + ([files] + rest.disks);
      status := WriteRest(path, content);
    }

    /** The writing loop and the final sync. */
    method WriteRest(path: cstring, content: string) returns (status: Status)
      modifies this`files, this`history, this`ops
      ensures var t := RestTrail(old(files), path, content, 0, host, old(ops));
              && files == End(old(files), t) && history == old(history) + t.disks
              && status == t.status && ops == t.ops
    {
      hide RestTrail;
      ghost var goal := RestTrail(files, path, content, 0, host, ops);
      var done := 0;
      while true
        invariant 0 <= done <= |content|
        invariant var rest := RestTrail(files, path, content, done, host, ops);
                  && history + rest.disks == old(history) + goal.disks
                  && End(files, rest) == End(old(files), goal)
                  && rest.status == goal.status && rest.ops == goal.ops
        decreases |content| - done
      {
        RestStep(files, path, content, done, host, ops);
        ghost var before := history;
        ops := ops + 1;
        if !host.ok(ops - 1) {
          return host.error(ops - 1);
        }
        if done == |content| {
          return Fine;
        }
        var written := if host.written(ops - 1) < |content| - done then host.written(ops - 1) else |content| - done;
        if written == 0 {
          return IoError;
        }
        done := done + written;
        Put(path, content[..done]);
        ghost var rest := RestTrail(files, path, content, done, host, ops);
        assert history + rest.disks == before + ([files] + rest.disks);
      }
    }

    /** usbs_platform_replace_file. */
    method ReplaceFile(to: cstring, from: cstring) returns (status: Status)
      modifies this`files, this`history, this`ops
      ensures ops == old(ops) + 1
      ensures if host.ok(old(ops)) && from in old(files)
              then status == Fine && files == Rename(old(files), from, to) && history == old(history) + [files]
              else files == old(files) && history == old(history)
                   && status == if host.ok(old(ops)) then NotFound else host.error(old(ops))
    {
      ops := ops + 1;
      if !host.ok(ops - 1) {
        return host.error(ops - 1);
      }
      if from !in files {
        return NotFound;
      }
      files := Rename(files, from, to);
      history := history + [files];
      return Fine;
    }

    method DeleteFile(path: cstring)
      modifies this`files, this`history, this`ops
      ensures var t := DiscardTrail(old(files), path, Fine, host, old(ops));
              files == End(old(files), t) && history == old(history) + t.disks && ops == t.ops
    {
      ops := ops + 1;
      if host.ok(ops - 1) {
        files := files - {path};
        history := history + [files];
      }
    }

    /** Writing under a temporary name and renaming, as write_report_file and refresh_index do. */
    method Save(final: cstring, content: string) returns (status: Status)
      requires Valid() && |final| < PATH_MAX
      modifies this`files, this`history, this`ops, this`calls
      ensures Valid() && calls == old(calls) + {Call(final, content)}
      ensures var t := SaveTrail(old(files), final, content, host, old(ops));
              && files == End(old(files), t) && history == old(history) + t.disks
              && status == t.status && ops == t.ops
    {
      hide FileTrail, Safe, AllSafe, TempPath, HasTempOfItsOwn;
      ghost var disk, start, before, earlier := files, ops, history, calls;
      var temp := TempPath(final);
      status := WriteFile(temp, content);
      FileComplete(disk, temp, content, host, start);
      if status == Fine {
        status := ReplaceFile(final, temp);
        if status != Fine {
          DeleteFile(temp);
        }
      } else {
        DeleteFile(temp);
      }
      ghost var t := SaveTrail(disk, final, content, host, start);
      assert history == before + t.disks;
      assert files == End(disk, t);
      calls := calls + {Call(final, content)};
      if CallsFit() {
        assert Call(final, content) in calls;
        assert forall c | c in earlier :: c in calls;
        SaveKeepsSafe(disk, before, known + earlier, Call(final, content), host, start);
        assert known + earlier + {Call(final, content)} == known + calls;
      }
    }

    /**
      write_report_file: nothing is touched on a bad id, timestamp or path; otherwise the content is
      saved under the device's directory.
     */
    method WriteReportFile(device: cstring, scanId: cstring, timestamp: cstring, extension: cstring, content: string)
      returns (r: Result<cstring>)
      requires Valid()
      modifies this`files, this`history, this`ops, this`calls
      ensures Valid()
      ensures var t := WriteTrail(old(files), root, device, scanId, timestamp, extension, content, host, old(ops));
              && files == End(old(files), t) && history == old(history) + t.disks && ops == t.ops
              && (if t.status == Fine then r == Target(root, device, scanId, timestamp, extension) else r == Failure(t.status))
      ensures '\\' in scanId || '/' in scanId ==> r == Failure(InvalidArg)
      ensures Target(root, device, scanId, timestamp, extension).Failure? ==>
                r.Failure? && unchanged(`files) && unchanged(`history) && unchanged(`calls)
      ensures r.Success? ==>
                && calls == old(calls) + {Call(r.value, content)}
                && r.value in files && files[r.value] == content
    {
      hide Stripped, SaveTrail, FileName;
      if '\\' in scanId || '/' in scanId {
        return Failure(InvalidArg);
      }
      var dir := DeviceDir(root, device);
      if dir.Failure? {
        return dir;
      }
      ops := ops + 1;
      if !host.ok(ops - 1) {
        return Failure(host.error(ops - 1));
      }
      var compact := CompactTimestamp(timestamp);
      if compact.Failure? {
        return Failure(compact.error);
      }
      var final := JoinPath(dir.value, FileName(compact.value, scanId, extension));
      if final.Failure? {
        return final;
      }
      ghost var disk, start := files, ops;
      var status := Save(final.value, content);
      if status != Fine {
        return Failure(status);
      }
      SavedIsThere(disk, final.value, content, host, start);
      return final;
    }
  }

  lemma {:induction false} RestComplete(disk: Disk, path: cstring, content: string, done: nat, host: Host, ops: nat)
    requires done <= |content| && Reports(host) && path in disk && disk[path] == content[..done]
    ensures var t := RestTrail(disk, path, content, done, host, ops);
            t.status == Fine ==> path in End(disk, t) && End(disk, t)[path] == content
    decreases |content| - done
  {
    hide RestTrail;
    RestStep(disk, path, content, done, host, ops);
    var written := if host.written(ops) < |content| - done then host.written(ops) else |content| - done;
    if host.ok(ops) && done < |content| && written > 0 {
      RestComplete(disk[path := content[..done + written]], path, content, done + written, host, ops + 1);
    }
    assert content[..|content|] == content;
  }

  /** A file whose writing is reported as done holds all of its content. */
  lemma FileComplete(disk: Disk, path: cstring, content: string, host: Host, ops: nat)
    requires Reports(host)
    ensures var t := FileTrail(disk, path, content, host, ops);
            t.status == Fine ==> path in End(disk, t) && End(disk, t)[path] == content
  {
    hide RestTrail;
    if host.ok(ops) {
      var emptied := disk[path := ""];
      assert content[..0] == "";
      RestComplete(emptied, path, content, 0, host, ops + 1);
      EndOfThen(disk, emptied, RestTrail(emptied, path, content, 0, host, ops + 1));
    }
  }

  lemma SaveKeepsSafe(disk: Disk, before: seq<Disk>, calls: set<Call>, c: Call, host: Host, ops: nat)
    requires Reports(host) && |c.path| < PATH_MAX && HasTempOfItsOwn(c)
    requires Safe(disk, calls) && AllSafe(before, calls)
    ensures var t := SaveTrail(disk, c.path, c.content, host, ops);
            AllSafe(before + t.disks, calls + {c}) && Safe(End(disk, t), calls + {c})
  {
    hide SaveTrail, Safe, HasTempOfItsOwn;
    MoreCalls(disk, calls, {c});
    AllMoreCalls(before, calls, {c});
    SaveIsSafe(disk, c, host, ops, calls + {c});
    AllSafeConcat(before, SaveTrail(disk, c.path, c.content, host, ops).disks, calls + {c});
  }

  /** One turn of the writing loop. */
  lemma RestStep(disk: Disk, path: cstring, content: string, done: nat, host: Host, ops: nat)
    requires done <= |content|
    ensures var t := RestTrail(disk, path, content, done, host, ops);
            var written := if host.written(ops) < |content| - done then host.written(ops) else |content| - done;
            if !host.ok(ops) then t == Trail([], host.error(ops), ops + 1)
            else if done == |content| then t == Trail([], Fine, ops + 1)
            else if written == 0 then t == Trail([], IoError, ops + 1)
            else
              var next := disk[path := content[..done + written]];
              var rest := RestTrail(next, path, content, done + written, host, ops + 1);
              t == Then(next, rest) && End(disk, t) == End(next, rest)
  {
  }

  /** A successful save leaves the content under its path. */
  lemma SavedIsThere(disk: Disk, final: cstring, content: string, host: Host, ops: nat)
    requires Reports(host) && SaveTrail(disk, final, content, host, ops).status == Fine
    ensures var t := SaveTrail(disk, final, content, host, ops);
            final in End(disk, t) && End(disk, t)[final] == content
  {
    hide FileTrail, TempPath;
    FileComplete(disk, TempPath(final), content, host, ops);
  }
}
