/** How a save ends (write_report_file and refresh_index in src/storage/storage.c), and what it leaves behind. */
module StoreOutcome {
  import opened CText
  import opened ReportNames
  import opened ReportStore
  import Walk

  /** Where the content is written first: the path with .tmp, in at most 511 characters. */
  function Temporary(final: string): string {
    var name := final + ".tmp";
    if |name| <= 511 then name else name[..511]
  }

  lemma TemporaryIs(final: cstring)
    ensures TempPath(final) == Temporary(final)
  {
  }

  /** Every operation from `from` on, up to `to`, succeeded. */
  ghost predicate AllOk(host: Host, from: nat, to: nat) {
    forall n | from <= n < to :: host.ok(n)
  }

  /** The f-th operation is the first that went wrong, and what went wrong with it is the status. */
  ghost predicate FailedAt(host: Host, from: nat, f: nat, status: Status) {
    && from <= f && AllOk(host, from, f)
    && if host.ok(f) then host.written(f) == 0 && status == IoError else status == host.error(f)
  }

  /** The status of some operations is that of the first that failed; without a failure it is Fine. */
  ghost predicate Told(host: Host, from: nat, to: nat, status: Status) {
    if status == Fine then AllOk(host, from, to) else exists f | from <= f < to :: FailedAt(host, from, f, status)
  }

  lemma ToldLater(host: Host, from: nat, to: nat, more: nat, status: Status)
    requires Told(host, from, to, status) && status != Fine && to <= more
    ensures Told(host, from, more, status)
  {
  }

  lemma ToldFrom(host: Host, from: nat, to: nat, status: Status)
    requires Told(host, from + 1, to, status) && host.ok(from)
    ensures Told(host, from, to, status)
  {
    if status != Fine {
      var f :| from + 1 <= f < to && FailedAt(host, from + 1, f, status);
      assert FailedAt(host, from, f, status);
    }
  }

  lemma {:induction false} RestTold(disk: Disk, path: cstring, content: string, done: nat, host: Host, ops: nat)
    requires done <= |content| && Reports(host)
    ensures var t := RestTrail(disk, path, content, done, host, ops);
            ops < t.ops && Told(host, ops, t.ops, t.status)
    decreases |content| - done
  {
    hide RestTrail;
    RestStep(disk, path, content, done, host, ops);
    var written := if host.written(ops) < |content| - done then host.written(ops) else |content| - done;
    if host.ok(ops) && done < |content| && written > 0 {
      var next := disk[path := content[..done + written]];
      RestTold(next, path, content, done + written, host, ops + 1);
      ToldFrom(host, ops, RestTrail(next, path, content, done + written, host, ops + 1).ops,
               RestTrail(next, path, content, done + written, host, ops + 1).status);
    } else if !host.ok(ops) || done < |content| {
      assert FailedAt(host, ops, ops, RestTrail(disk, path, content, done, host, ops).status);
    }
  }

  lemma FileTold(disk: Disk, path: cstring, content: string, host: Host, ops: nat)
    requires Reports(host)
    ensures var t := FileTrail(disk, path, content, host, ops);
            ops < t.ops && Told(host, ops, t.ops, t.status)
  {
    hide RestTrail, Told;
    if host.ok(ops) {
      var emptied := disk[path := ""];
      RestTold(emptied, path, content, 0, host, ops + 1);
      ToldFrom(host, ops, RestTrail(emptied, path, content, 0, host, ops + 1).ops,
               RestTrail(emptied, path, content, 0, host, ops + 1).status);
    } else {
      FirstFailed(host, ops);
    }
  }

  lemma FirstFailed(host: Host, ops: nat)
    requires !host.ok(ops) && Reports(host)
    ensures Told(host, ops, ops + 1, host.error(ops))
  {
    assert FailedAt(host, ops, ops, host.error(ops));
  }

  /**
    A save reports success if and only if none of its operations failed, and then the content is under
    its path and the temporary file is gone.  Otherwise it reports what its first failing operation
    reported; the last operation is to delete the temporary file, which is gone if that worked.
   */
  lemma SaveTold(disk: Disk, final: cstring, content: string, host: Host, ops: nat)
    requires Reports(host)
    ensures var t := SaveTrail(disk, final, content, host, ops);
            var (temp, end) := (Temporary(final), End(disk, t));
            && Told(host, ops, t.ops, t.status)
            && (t.status == Fine ==> final in end && end[final] == content && (temp != final ==> temp !in end))
            && (t.status != Fine && host.ok(t.ops - 1) ==> temp !in end)
  {
    hide FileTrail, TempPath, Told;
    TemporaryIs(final);
    var temp := TempPath(final);
    var w := FileTrail(disk, temp, content, host, ops);
    FileTold(disk, temp, content, host, ops);
    FileComplete(disk, temp, content, host, ops);
    var t := SaveTrail(disk, final, content, host, ops);
    if w.status == Fine {
      PublishTold(host, ops, w.ops, t);
    } else {
      ToldLater(host, ops, w.ops, t.ops, w.status);
    }
  }

  lemma PublishTold(host: Host, ops: nat, renaming: nat, t: Trail)
    requires Reports(host) && ops <= renaming && Told(host, ops, renaming, Fine)
    requires if host.ok(renaming) then t.status == Fine && t.ops == renaming + 1
             else t.status == host.error(renaming) && t.ops == renaming + 2
    ensures Told(host, ops, t.ops, t.status)
  {
    if !host.ok(renaming) {
      assert FailedAt(host, ops, renaming, t.status);
    }
  }

  // ---- where a report goes ----

  function Under(dir: string, name: string): string {
    if dir != "" && dir[|dir| - 1] == '/' then dir + name else dir + "/" + name
  }

  /** The device's directory, and the path of a report in it. */
  function Directory(root: string, device: string): string {
    Under(Under(root, "scans"), device)
  }

  function Name(stamp: string, scanId: string, extension: string): string {
    var name := stamp + "-" + scanId + "." + extension;
    if |name| <= 299 then name else name[..299]
  }

  /**
    The path of a report, or why there is none: an id with a separator, a path of 512 characters, or a
    timestamp that does not come to 16 characters without its hyphens and colons.
   */
  lemma TargetTable(root: cstring, device: cstring, scanId: cstring, timestamp: cstring, extension: cstring)
    ensures var (target, dir) := (Target(root, device, scanId, timestamp, extension), Directory(root, device));
            var stamp := Stripped(timestamp);
            var path := Under(dir, Name(stamp, scanId, extension));
            if '/' in scanId || '\\' in scanId then target == Failure(InvalidArg)
            else if |Under(root, "scans")| > 511 || |dir| > 511 then target == Failure(NoMemory)
            else if |stamp| != 16 then target == Failure(InvalidArg)
            else if |path| > 511 then target == Failure(NoMemory)
            else target.Success? && target.value == path
  {
    hide Stripped;
  }

  /**
    An id or a directory that is no good is found before anything is done, any other bad path after the
    directory has been made; a report that has a path is saved, and the first failure is told.
   */
  lemma WriteTold(disk: Disk, root: cstring, device: cstring, scanId: cstring, timestamp: cstring, extension: cstring,
                  content: string, host: Host, ops: nat)
    requires Reports(host)
    ensures var target := Target(root, device, scanId, timestamp, extension);
            var t := WriteTrail(disk, root, device, scanId, timestamp, extension, content, host, ops);
            var early := '/' in scanId || '\\' in scanId || |Under(root, "scans")| > 511 || |Directory(root, device)| > 511;
            && (early ==> target.Failure? && t.disks == [] && t.ops == ops && t.status == target.error)
            && (!early && target.Failure? ==>
                  t.disks == [] && t.status == if host.ok(ops) then target.error else host.error(ops))
            && (target.Success? ==> Told(host, ops, t.ops, t.status))
            && (t.status == Fine ==> target.Success? && target.value in End(disk, t) && End(disk, t)[target.value] == content)
  {
    hide Stripped, SaveTrail, End, Told;
    TargetTable(root, device, scanId, timestamp, extension);
    var target := Target(root, device, scanId, timestamp, extension);
    if target.Success? {
      if host.ok(ops) {
        SaveTold(disk, target.value, content, host, ops + 1);
        ToldFrom(host, ops, SaveTrail(disk, target.value, content, host, ops + 1).ops,
                 SaveTrail(disk, target.value, content, host, ops + 1).status);
      } else {
        FirstFailed(host, ops);
      }
    }
  }
}
