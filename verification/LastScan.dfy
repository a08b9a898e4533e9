/** The last scan of a device, derived from the listing of its report directory (src/storage/storage.c). */
module LastScan {
  import opened CText
  import opened Detection
  import opened ReportNames
  import Walk

  datatype Last = Last(scanId: cstring, scannedAt: cstring, reportCount: nat, found: bool)

  const NONE := Last("", "", 0, false)

  const JSON := ".json"

  // ---- the listing ----

  predicate IsReport(e: Entry) {
    !e.isDirectory && EndsWith(e.name, JSON)
  }

  function Names(entries: seq<Entry>): seq<cstring> {
    if entries == [] then []
    else
      var e := entries[|entries| - 1];
      Names(entries[..|entries| - 1]) + if IsReport(e) then [e.name] else []
  }

  /** The greatest name by strcmp. */
  function Newest(names: seq<cstring>): cstring
    requires names != []
  {
    var n := |names| - 1;
    if n == 0 then names[0]
    else
      var best := Newest(names[..n]);
      if Less(best, names[n]) then names[n] else best
  }

  lemma {:induction false} NewestIsGreatest(names: seq<cstring>)
    requires names != []
    ensures Newest(names) in names
    ensures forall i | 0 <= i < |names| :: !Less(Newest(names), names[i])
    decreases |names|
  {
    var n := |names| - 1;
    if n == 0 {
      LessTotal(names[0], names[0]);
    } else {
      NewestIsGreatest(names[..n]);
      var best := Newest(names[..n]);
      forall i | 0 <= i < |names| ensures !Less(Newest(names), names[i]) {
        LessTotal(names[n], names[i]);
        if i < n {
          assert names[..n][i] == names[i];
          if Less(best, names[n]) && Less(names[n], names[i]) {
            LessTransitive(best, names[n], names[i]);
          }
        }
      }
    }
  }

  /** What a name says: a timestamp, a hyphen, the scan's id and the extension. */
  function Described(name: cstring, count: nat): Last {
    if |name| >= 22 && name[16] == '-' && EndsWith(name, JSON) then
      var id := name[17..|name| - 5];
      Last(ShortId(id), CStr(Expand(name[..16])), count, true)
    else
      Last("", "", count, true)
  }

  function LastOf(names: seq<cstring>): Last {
    if names == [] then NONE else Described(Newest(names), |names|)
  }

  /** usbs_store_last_scan: a directory that does not exist is a device never scanned. */
  method LastScan(listing: Result<Walk.Listing>) returns (r: Result<Last>)
    ensures listing.Failure? ==> r == if listing.error == NotFound then Success(NONE) else Failure(listing.error)
    ensures listing.Success? ==>
              r == if listing.value.end == NotFound then Success(LastOf(Names(listing.value.entries)))
                   else Failure(listing.value.end)
  {
    if listing.Failure? {
      return if listing.error == NotFound then Success(NONE) else Failure(listing.error);
    }
    var entries := listing.value.entries;
    var count: nat := 0;
    var best: Option<cstring> := None;
    for i := 0 to |entries|
      invariant count == |Names(entries[..i])|
      invariant best == if Names(entries[..i]) == [] then None else Some(Newest(Names(entries[..i])))
    {
      NamesSnoc(entries, i);
      if entries[i].isDirectory || !EndsWith(entries[i].name, JSON) {
        continue;
      }
      NewestSnoc(Names(entries[..i]), entries[i].name);
      count := count + 1;
      if best.None? || Less(best.value, entries[i].name) {
        best := Some(entries[i].name);
      }
    }
    assert entries[..|entries|] == entries;
    if listing.value.end != NotFound {
      return Failure(listing.value.end);
    }
    if best.None? {
      return Success(NONE);
    }
    return Success(Described(best.value, count));
  }

  lemma NamesSnoc(entries: seq<Entry>, i: nat)
    requires i < |entries|
    ensures Names(entries[..i + 1])
         == if IsReport(entries[i]) then Names(entries[..i]) + [entries[i].name] else Names(entries[..i])
  {
    assert entries[..i + 1][..i] == entries[..i];
    assert Names(entries[..i]) + [] == Names(entries[..i]);
  }

  lemma NewestSnoc(names: seq<cstring>, name: cstring)
    ensures Newest(names + [name])
         == if names == [] then name else if Less(Newest(names), name) then name else Newest(names)
  {
    assert (names + [name])[..|names|] == names;
  }

  // ---- reports written by the store ----

  /** One report on disk: when it was finished and the id of its scan. */
  datatype Report = Report(stamp: Stamp, id: cstring)

  predicate IsName(name: cstring, r: Report) {
    IsStamp(r.stamp) && name == Compact(r.stamp) + "-" + r.id + JSON
  }

  /** An id that does not fit its buffer is left empty. */
  function ShortId(id: cstring): cstring {
    if |id| < 64 then id else ""
  }

  /** The last scan is that of the report, its id given whole or not at all. */
  predicate Tells(last: Last, r: Report, count: nat)
    requires IsStamp(r.stamp)
  {
    && last.found && last.reportCount == count && last.scannedAt == Iso(r.stamp)
    && (|r.id| < 64 ==> last.scanId == r.id)
    && (|r.id| >= 64 ==> last.scanId == "")
  }

  lemma DescribedName(name: cstring, r: Report, count: nat)
    requires IsName(name, r)
    ensures Tells(Described(name, count), r, count)
  {
    hide Expand, Compact, Iso;
    CompactIs(r.stamp);
    ExpandInvertsCompact(r.stamp);
    assert name[..16] == Compact(r.stamp) && name[17..|name| - 5] == r.id;
    assert name[|name| - 5..] == JSON;
    StampText(r.stamp);
  }

  lemma StampText(t: Stamp)
    requires IsStamp(t)
    ensures CStr(Iso(t)) == Iso(t)
  {
    hide Iso;
    IsoIsPlain(t);
    CStrOfNulFree(Iso(t));
  }

  lemma IsoIsPlain(t: Stamp)
    requires IsStamp(t)
    ensures NUL !in Iso(t)
  {
    assert forall n: nat | n < 100 :: NUL !in Two(n);
  }

  /** A name that is none of a report's still counts as a report, of a scan of which nothing is known. */
  lemma DescribedTable(name: cstring, count: nat)
    ensures var last := Described(name, count);
            && last.found && last.reportCount == count
            && if |name| >= 22 && name[16] == '-' && name[|name| - 5..] == ".json" then
                 && last.scannedAt == CStr(name[..4] + "-" + name[4..6] + "-" + name[6..8] + "T" + name[9..11] + ":"
                                           + name[11..13] + ":" + name[13..15] + "Z")
                 && last.scanId == if |name| - 22 <= 63 then name[17..|name| - 5] else ""
               else last.scannedAt == "" && last.scanId == ""
  {
    hide CStr;
    if |name| >= 16 {
      var c := name[..16];
      assert c[..4] == name[..4] && c[4..6] == name[4..6] && c[6..8] == name[6..8] && c[9..11] == name[9..11]
          && c[11..13] == name[11..13] && c[13..15] == name[13..15];
    }
  }

  /** A later report never has a smaller name. */
  lemma NamesFollowTime(a: cstring, ra: Report, b: cstring, rb: Report)
    requires IsName(a, ra) && IsName(b, rb) && Earlier(ra.stamp, rb.stamp)
    ensures Less(a, b)
  {
    hide Less, Compact, Earlier;
    CompactOrder(ra.stamp, rb.stamp);
    assert a == Compact(ra.stamp) + ("-" + ra.id + JSON) && b == Compact(rb.stamp) + ("-" + rb.id + JSON);
    LessConcat(Compact(ra.stamp), "-" + ra.id + JSON, Compact(rb.stamp), "-" + rb.id + JSON);
  }
}
