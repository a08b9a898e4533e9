/**
  The index of the report store (refresh_index in src/storage/storage.c): a cache rewritten from
  whatever text is there, for one device at a time.
 */
module Index {
  import opened CText
  import opened JsonSyntax
  import opened JsonMembers
  import opened JsonReader
  import Decimal
  import W = JsonWriter
  import D = JsonDocument
  import T = JsonRoundTrip
  import History = ReportHistory
  import LastScan
  import opened ReportNames
  import ReportStore
  import Walk

  const SCHEMA_VERSION: cstring := "schema_version"
  const DEVICES: cstring := "devices"
  const LAST_SCAN_ID: cstring := "last_scan_id"
  const LAST_SCAN_AT: cstring := "last_scan_at"
  const REPORT_COUNT: cstring := "report_count"

  // ---- entries ----

  datatype DeviceEntry = DeviceEntry(scanId: cstring, scannedAt: cstring, count: int)

  function EntryTree(e: DeviceEntry): Value {
    Object([Text(LAST_SCAN_ID, e.scanId), Text(LAST_SCAN_AT, e.scannedAt), Count(REPORT_COUNT, e.count)])
  }

  /** A well-formed entry: an id and a time of any type, and an integral count. */
  function ReadEntry(v: Value): Option<DeviceEntry> {
    var id, at, count := Get(v, LAST_SCAN_ID), Get(v, LAST_SCAN_AT), AsInt(Get(v, REPORT_COUNT));
    if id.None? || at.None? || count.None? then None
    else Some(DeviceEntry(AsString(id.value), AsString(at.value), count.value))
  }

  /** The first well-formed entry with the key. */
  function Lookup(ms: seq<Member>, key: cstring): Option<DeviceEntry> {
    if ms == [] then None
    else if ms[0].key == key && ReadEntry(ms[0].value).Some? then ReadEntry(ms[0].value)
    else Lookup(ms[1..], key)
  }

  /** The members of "devices" in the text of an index; none when it cannot be parsed. */
  function DevicesOf(text: Option<string>, strtod: string -> real): seq<Member> {
    if text.None? || Parse(text.value, strtod).Failure? then []
    else
      var devices := Get(Parse(text.value, strtod).value, DEVICES);
      if devices.Some? && devices.value.Object? then devices.value.members else []
  }

  /** What an index says about a device. */
  function EntryFor(text: Option<string>, strtod: string -> real, key: cstring): Option<DeviceEntry> {
    Lookup(DevicesOf(text, strtod), key)
  }

  /** Every well-formed entry but the device's own. */
  function Carried(ms: seq<Member>, key: cstring): seq<Member> {
    if ms == [] then []
    else
      var m := ms[|ms| - 1];
      Carried(ms[..|ms| - 1], key)
      + if m.key != key && ReadEntry(m.value).Some? then [Member(m.key, EntryTree(ReadEntry(m.value).value))] else []
  }

  function EntryOf(last: LastScan.Last): DeviceEntry {
    DeviceEntry(last.scanId, last.scannedAt, last.reportCount)
  }

  function NewDevices(ms: seq<Member>, key: cstring, last: LastScan.Last): seq<Member> {
    Carried(ms, key) + if last.found then [Member(key, EntryTree(EntryOf(last)))] else []
  }

  function IndexTree(devices: seq<Member>): Value {
    Object([Count(SCHEMA_VERSION, 1), Member(DEVICES, Object(devices))])
  }

  function NewText(existing: Option<string>, strtod: string -> real, key: cstring, last: LastScan.Last): string {
    Render(IndexTree(NewDevices(DevicesOf(existing, strtod), key, last)))
  }

  // ---- every member carried or written is small ----

  lemma IndexIsShallow(devices: seq<Member>)
    requires forall i | 0 <= i < |devices| :: Shallow(devices[i].value, 2)
    ensures Shallow(IndexTree(devices), 0)
  {
    assert Shallow(Object(devices), 1);
  }

  lemma EntryIsShallow(e: DeviceEntry)
    ensures Shallow(EntryTree(e), 2)
  {
  }

  lemma {:induction false} CarriedIsShallow(ms: seq<Member>, key: cstring)
    ensures forall i | 0 <= i < |Carried(ms, key)| :: Shallow(Carried(ms, key)[i].value, 2)
    decreases |ms|
  {
    hide Shallow, EntryTree, ReadEntry;
    if ms != [] {
      var m := ms[|ms| - 1];
      CarriedIsShallow(ms[..|ms| - 1], key);
      if ReadEntry(m.value).Some? {
        EntryIsShallow(ReadEntry(m.value).value);
      }
    }
  }

  lemma NewIsShallow(ms: seq<Member>, key: cstring, last: LastScan.Last)
    ensures Shallow(IndexTree(NewDevices(ms, key, last)), 0)
  {
    hide Shallow, EntryTree, Carried;
    CarriedIsShallow(ms, key);
    EntryIsShallow(EntryOf(last));
    IndexIsShallow(NewDevices(ms, key, last));
  }

  // ---- building the text ----

  method WriteEntry(w: W.Writer, e: DeviceEntry)
    requires w.Valid()
    modifies w.Repr()
    ensures w.Valid() && w.calls == old(w.calls) + Calls(EntryTree(e))
  {
    hide Calls, MemberCalls, W.Writer.Valid;
    w.BeginObject();
    ghost var base := w.calls;
    NoMembers(base);
    ghost var ms: seq<Member> := [];
    ms := PutText(w, LAST_SCAN_ID, e.scanId, base, ms);
    ms := PutText(w, LAST_SCAN_AT, e.scannedAt, base, ms);
    ms := PutCount(w, REPORT_COUNT, e.count, base, ms);
    w.EndObject();
    ObjectCalls(old(w.calls), ms);
    assert EntryTree(e) == Object(ms);
  }

  method ReadDeviceEntry(v: Value) returns (e: Option<DeviceEntry>)
    ensures e == ReadEntry(v)
  {
    hide Find;
    var id := ObjectGet(v, LAST_SCAN_ID);
    var at := ObjectGet(v, LAST_SCAN_AT);
    var count := ObjectGet(v, REPORT_COUNT);
    if id.None? || at.None? || AsInt(count).None? {
      return None;
    }
    return Some(DeviceEntry(AsString(id.value), AsString(at.value), AsInt(count).value));
  }

  /** Carrying forward every other device's entry. */
  method CarryForward(w: W.Writer, ms: seq<Member>, key: cstring)
    requires w.Valid()
    modifies w.Repr()
    ensures w.Valid() && w.calls == old(w.calls) + MemberCalls(Carried(ms, key))
  {
    hide Calls, MemberCalls, W.Writer.Valid, EntryTree, ReadEntry;
    ghost var base := w.calls;
    NoMembers(base);
    for i := 0 to |ms|
      invariant w.Valid() && w.calls == base + MemberCalls(Carried(ms[..i], key))
    {
      assert ms[..i + 1][..i] == ms[..i];
      assert Carried(ms[..i], key) + [] == Carried(ms[..i], key);
      if ms[i].key == key {
        continue;
      }
      var e := ReadDeviceEntry(ms[i].value);
      if e.None? {
        continue;
      }
      OneMore(w.calls, base, Carried(ms[..i], key), Member(ms[i].key, EntryTree(e.value)));
      w.Key(ms[i].key);
      WriteEntry(w, e.value);
    }
    assert ms[..|ms|] == ms;
  }

  method OldDevices(existing: Option<string>, strtod: string -> real) returns (ms: seq<Member>)
    ensures ms == DevicesOf(existing, strtod)
  {
    hide JsonReader.Parse, Find;
    if existing.None? {
      return [];
    }
    var root := new Slot(None);
    var status := ParseInto(existing.value, strtod, root);
    if root.value.None? {
      return [];
    }
    var devices := ObjectGet(root.value.value, DEVICES);
    if devices.None? || !devices.value.Object? {
      return [];
    }
    return devices.value.members;
  }

  method WriteDevices(w: W.Writer, ms: seq<Member>, key: cstring, last: LastScan.Last)
    requires w.Valid()
    modifies w.Repr()
    ensures w.Valid()
    ensures w.calls == old(w.calls) + [Key(DEVICES)] + Calls(Object(NewDevices(ms, key, last)))
  {
    hide Calls, MemberCalls, W.Writer.Valid, EntryTree, Carried;
    w.Key(DEVICES);
    ghost var start := w.calls;
    w.BeginObject();
    ghost var base := w.calls;
    CarryForward(w, ms, key);
    if last.found {
      OneMore(w.calls, base, Carried(ms, key), Member(key, EntryTree(EntryOf(last))));
      w.Key(key);
      WriteEntry(w, EntryOf(last));
    } else {
      assert Carried(ms, key) + [] == Carried(ms, key);
    }
    w.EndObject();
    ObjectCalls(start, NewDevices(ms, key, last));
  }

  /** The document that refresh_index builds from whatever text is there. */
  method BuildIndex(existing: Option<string>, strtod: string -> real, key: cstring, last: LastScan.Last)
    returns (text: Result<string>)
    ensures text == Success(NewText(existing, strtod, key, last))
  {
    hide Calls, MemberCalls, W.Writer.Valid, NewDevices, W.Run, W.Finish, Render, DevicesOf;
    var ms := OldDevices(existing, strtod);
    var w := new W.Writer();
    w.BeginObject();
    ghost var base := w.calls;
    NoMembers(base);
    ghost var members: seq<Member> := [];
    members := PutCount(w, SCHEMA_VERSION, 1, base, members);
    ghost var devices := Member(DEVICES, Object(NewDevices(ms, key, last)));
    OneMore(w.calls, base, members, devices);
    WriteDevices(w, ms, key, last);
    w.EndObject();
    assert members + [devices] == IndexTree(NewDevices(ms, key, last)).members;
    IndexText(w.calls, ms, key, last);
    text := w.FinishDocument();
  }

  lemma IndexText(calls: seq<Call>, ms: seq<Member>, key: cstring, last: LastScan.Last)
    requires calls == [BeginObject] + MemberCalls(IndexTree(NewDevices(ms, key, last)).members) + [EndObject]
    ensures W.Finish(W.Run(W.INITIAL, calls)) == Success(Render(IndexTree(NewDevices(ms, key, last))))
  {
    hide MemberCalls, NewDevices, Render, W.Run;
    var tree := IndexTree(NewDevices(ms, key, last));
    assert calls == Calls(tree);
    NewIsShallow(ms, key, last);
    ShallowNests(tree, 0);
    D.TreeFinishes(tree);
  }

  // ---- reading the text back ----

  /** A count that a 64-bit conversion prints and strtod reads back. */
  ghost predicate Readable(count: int, strtod: string -> real) {
    -TWO_TO_THE_63 <= count < TWO_TO_THE_63 && strtod(Decimal.IntText(count)) == count as real
  }

  /**
    strtod rounds correctly: integers up to 2^53, the smallest 64-bit integer, and any 64-bit integer
    that is itself a value of strtod are read exactly.
   */
  ghost predicate CorrectlyRounded(strtod: string -> real) {
    && T.ExactOnIntegers(strtod)
    && Readable(-TWO_TO_THE_63, strtod)
    && forall n: int | -TWO_TO_THE_63 <= n < TWO_TO_THE_63 && IsRead(n as real, strtod) :: Readable(n, strtod)
  }

  lemma EntryReadsBack(e: DeviceEntry, strtod: string -> real)
    requires Readable(e.count, strtod)
    ensures T.ReadsBack(EntryTree(e), strtod)
  {
  }

  lemma EntryReadsAsWritten(e: DeviceEntry)
    requires -TWO_TO_THE_63 <= e.count < TWO_TO_THE_63
    ensures ReadEntry(EntryTree(e)) == Some(e)
  {
    var ms := EntryTree(e).members;
    assert LAST_SCAN_ID[10] != LAST_SCAN_AT[10] && REPORT_COUNT[0] != LAST_SCAN_ID[0];
    assert REPORT_COUNT[0] != LAST_SCAN_AT[0];
    FindAt(ms, LAST_SCAN_ID, 0);
    FindAt(ms, LAST_SCAN_AT, 1);
    FindAt(ms, REPORT_COUNT, 2);
  }

  ghost predicate AllRead(ms: seq<Member>, strtod: string -> real) {
    forall i | 0 <= i < |ms| :: FromText(ms[i].value, 2, strtod)
  }

  lemma {:induction false} FoundFromText(ms: seq<Member>, key: cstring, d: nat, strtod: string -> real)
    requires forall i | 0 <= i < |ms| :: FromText(ms[i].value, d, strtod)
    ensures Find(ms, key).Some? ==> FromText(Find(ms, key).value, d, strtod)
  {
    hide FromText;
    if ms != [] && ms[0].key != key {
      FoundFromText(ms[1..], key, d, strtod);
    }
  }

  lemma DevicesAreRead(existing: Option<string>, strtod: string -> real)
    ensures AllRead(DevicesOf(existing, strtod), strtod)
  {
    hide Parse, Find;
    if existing.Some? && Parse(existing.value, strtod).Success? {
      AcceptedIsShallow(existing.value, strtod);
      var root := Parse(existing.value, strtod).value;
      if root.Object? {
        FoundFromText(root.members, DEVICES, 1, strtod);
      }
    }
  }

  /** A count that was read is one that can be written and read again. */
  lemma ReadCountIsReadable(v: Value, d: nat, strtod: string -> real)
    requires CorrectlyRounded(strtod) && FromText(v, d, strtod) && ReadEntry(v).Some?
    ensures Readable(ReadEntry(v).value.count, strtod)
  {
    hide Find, Readable;
    FoundFromText(v.members, REPORT_COUNT, d + 1, strtod);
    var n := Get(v, REPORT_COUNT).value.n;
    assert IsRead(n, strtod);
    if -TWO_TO_THE_63 <= n.Floor < TWO_TO_THE_63 {
      assert IsRead(n.Floor as real, strtod);
      assert Readable(n.Floor, strtod);
    }
  }

  lemma {:induction false} CarriedReadsBack(ms: seq<Member>, key: cstring, strtod: string -> real)
    requires CorrectlyRounded(strtod) && AllRead(ms, strtod)
    ensures forall i | 0 <= i < |Carried(ms, key)| :: T.ReadsBack(Carried(ms, key)[i].value, strtod)
    decreases |ms|
  {
    hide EntryTree, ReadEntry, CorrectlyRounded, T.ReadsBack, FromText;
    if ms != [] {
      var m := ms[|ms| - 1];
      assert AllRead(ms[..|ms| - 1], strtod);
      CarriedReadsBack(ms[..|ms| - 1], key, strtod);
      if ReadEntry(m.value).Some? {
        ReadCountIsReadable(m.value, 2, strtod);
        EntryReadsBack(ReadEntry(m.value).value, strtod);
      }
    }
  }

  lemma {:induction false} LookupConcat(a: seq<Member>, b: seq<Member>, key: cstring)
    ensures Lookup(a + b, key) == if Lookup(a, key).Some? then Lookup(a, key) else Lookup(b, key)
  {
    hide ReadEntry;
    if a == [] {
      assert a + b == b;
    } else {
      assert (a + b)[1..] == a[1..] + b;
      LookupConcat(a[1..], b, key);
    }
  }

  lemma LookupOne(m: Member, key: cstring)
    ensures Lookup([m], key) == if m.key == key then ReadEntry(m.value) else None
  {
    hide ReadEntry;
    assert [m][1..] == [];
  }

  lemma {:induction false} CarriedLookup(ms: seq<Member>, key: cstring, other: cstring, strtod: string -> real)
    requires CorrectlyRounded(strtod) && AllRead(ms, strtod)
    ensures Lookup(Carried(ms, key), other) == if other == key then None else Lookup(ms, other)
    decreases |ms|
  {
    hide EntryTree, ReadEntry, CorrectlyRounded, FromText, Lookup;
    if ms == [] {
      LookupNothing(other);
    } else {
      var n := |ms| - 1;
      var m := ms[n];
      assert AllRead(ms[..n], strtod);
      CarriedLookup(ms[..n], key, other, strtod);
      assert ms == ms[..n] + [m];
      LookupConcat(ms[..n], [m], other);
      LookupOne(m, other);
      if m.key != key && ReadEntry(m.value).Some? {
        var e := ReadEntry(m.value).value;
        ReadCountIsReadable(m.value, 2, strtod);
        EntryReadsAsWritten(e);
        LookupConcat(Carried(ms[..n], key), [Member(m.key, EntryTree(e))], other);
        LookupOne(Member(m.key, EntryTree(e)), other);
      } else {
        assert Carried(ms, key) == Carried(ms[..n], key);
      }
    }
  }

  lemma LookupNothing(key: cstring)
    ensures Lookup([], key) == None
  {
  }

  lemma SmallIsReadable(count: nat, strtod: string -> real)
    requires T.ExactOnIntegers(strtod) && count <= TWO_TO_THE_53
    ensures Readable(count, strtod)
  {
    Decimal.IntTextDenotes(count);
  }

  lemma IndexReadsBack(devices: seq<Member>, strtod: string -> real)
    requires T.ExactOnIntegers(strtod)
    requires forall i | 0 <= i < |devices| :: T.ReadsBack(devices[i].value, strtod)
    ensures T.ReadsBack(IndexTree(devices), strtod)
  {
    hide T.ExactOnIntegers;
    SmallIsReadable(1, strtod);
    assert T.ReadsBack(Number(1 as real), strtod);
    assert T.ReadsBack(Object(devices), strtod);
  }

  lemma NewReadsBack(ms: seq<Member>, key: cstring, last: LastScan.Last, strtod: string -> real)
    requires CorrectlyRounded(strtod) && AllRead(ms, strtod) && last.reportCount <= TWO_TO_THE_53
    ensures T.ReadsBack(IndexTree(NewDevices(ms, key, last)), strtod)
  {
    hide EntryTree, Carried, T.ReadsBack, Readable, T.ExactOnIntegers;
    CarriedReadsBack(ms, key, strtod);
    SmallIsReadable(last.reportCount, strtod);
    EntryReadsBack(EntryOf(last), strtod);
    IndexReadsBack(NewDevices(ms, key, last), strtod);
  }

  lemma DevicesOfNew(devices: seq<Member>, text: string, strtod: string -> real)
    requires Parse(text, strtod) == Success(IndexTree(devices))
    ensures DevicesOf(Some(text), strtod) == devices
  {
    hide Parse;
    var ms := IndexTree(devices).members;
    assert SCHEMA_VERSION != DEVICES;
    FindAt(ms, DEVICES, 1);
  }

  /**
    Whatever text was there, missing and corrupt included, the new text parses; its entry for the
    device is the directory-derived last scan, and every other device's entry is what it was.
   */
  lemma IndexAgrees(existing: Option<string>, strtod: string -> real, key: cstring, last: LastScan.Last, other: cstring)
    requires CorrectlyRounded(strtod) && last.reportCount <= TWO_TO_THE_53
    ensures var text := NewText(existing, strtod, key, last);
            && Parse(text, strtod).Success?
            && EntryFor(Some(text), strtod, other)
               == if other != key then EntryFor(existing, strtod, other)
                  else if last.found then Some(EntryOf(last)) else None
  {
    hide Parse, Render, CorrectlyRounded, Carried, Lookup, EntryTree, ReadEntry, T.ReadsBack, AllRead;
    var ms := DevicesOf(existing, strtod);
    var devices := NewDevices(ms, key, last);
    DevicesAreRead(existing, strtod);
    NewReadsBack(ms, key, last, strtod);
    NewIsShallow(ms, key, last);
    T.ReadRendered(IndexTree(devices), strtod);
    DevicesOfNew(devices, Render(IndexTree(devices)), strtod);
    CarriedLookup(ms, key, other, strtod);
    if last.found {
      var own := Member(key, EntryTree(EntryOf(last)));
      EntryReadsAsWritten(EntryOf(last));
      LookupConcat(Carried(ms, key), [own], other);
      LookupOne(own, other);
    } else {
      assert devices == Carried(ms, key);
    }
  }

  /** Which values under "devices" are entries: an id, a time and an integral count, in the range of a long long. */
  lemma EntryTable(v: Value)
    ensures var id, at, count := Get(v, "last_scan_id"), Get(v, "last_scan_at"), Get(v, "report_count");
            var entry := ReadEntry(v);
            && (entry.Some? <==> id.Some? && at.Some? && count.Some? && count.value.Number?
                                 && count.value.n == count.value.n.Floor as real)
            && (entry.Some? ==>
                  && entry.value.scanId == (if id.value.String? then id.value.s else "")
                  && entry.value.scannedAt == (if at.value.String? then at.value.s else "")
                  && entry.value.count == if -0x8000_0000_0000_0000 <= count.value.n.Floor < 0x8000_0000_0000_0000
                                          then count.value.n.Floor else -0x8000_0000_0000_0000)
  {
    hide Find;
  }

  /** The parsed text of an index that has `last` as the one entry of the device, or no entry of it. */
  ghost predicate Shows(parsed: Result<Value>, device: cstring, last: LastScan.Last) {
    exists devices: seq<Member> ::
      && parsed == Success(Object([Member("schema_version", Number(1 as real)), Member("devices", Object(devices))]))
      && ShowsOnce(devices, device, last)
  }

  ghost predicate ShowsOnce(devices: seq<Member>, device: cstring, last: LastScan.Last) {
    var others := if last.found then |devices| - 1 else |devices|;
    && others >= 0 && (forall i | 0 <= i < others :: devices[i].key != device)
    && (last.found ==>
          devices[others] == Member(device, Object([Member("last_scan_id", String(last.scanId)),
            Member("last_scan_at", String(last.scannedAt)), Member("report_count", Number(last.reportCount as real))])))
  }

  lemma {:induction false} CarriedAreOthers(ms: seq<Member>, key: cstring)
    ensures forall i | 0 <= i < |Carried(ms, key)| :: Carried(ms, key)[i].key != key
    decreases |ms|
  {
    hide EntryTree, ReadEntry;
    if ms != [] {
      CarriedAreOthers(ms[..|ms| - 1], key);
    }
  }

  /** The text of the new index, member by member. */
  lemma NewShows(existing: Option<string>, strtod: string -> real, key: cstring, last: LastScan.Last)
    requires CorrectlyRounded(strtod) && last.reportCount <= TWO_TO_THE_53
    ensures Shows(Parse(NewText(existing, strtod, key, last), strtod), key, last)
  {
    hide Parse, Render, CorrectlyRounded, Carried, ReadEntry, T.ReadsBack, AllRead, DevicesOf;
    var ms := DevicesOf(existing, strtod);
    var devices := NewDevices(ms, key, last);
    DevicesAreRead(existing, strtod);
    NewReadsBack(ms, key, last, strtod);
    NewIsShallow(ms, key, last);
    T.ReadRendered(IndexTree(devices), strtod);
    CarriedAreOthers(ms, key);
    assert ShowsOnce(devices, key, last);
  }

  // ---- the refresh ----

  /** What is at a path, if there is a file and it can be read. */
  function TextAt(disk: ReportStore.Disk, path: cstring, readable: bool): Option<string> {
    if readable && path in disk then Some(disk[path]) else None
  }

  function IndexPath(root: cstring): cstring {
    Walk.Join(root, "index.json")
  }

  /**
    refresh_index: the index is replaced as a whole or left as it is, and no other file but the
    temporary one is touched; nothing that goes wrong is reported.
   */
  method RefreshIndex(store: ReportStore.Store, key: cstring, last: Result<LastScan.Last>, readable: bool,
                      strtod: string -> real)
    returns (refreshed: bool)
    requires store.Valid()
    modifies store
    ensures store.Valid()
    ensures var path := IndexPath(store.root);
            if refreshed then
              && |path| + 4 < ReportStore.PATH_MAX && last.Success?
              && TextAt(store.files, path, true)
                 == Some(NewText(TextAt(old(store.files), path, readable), strtod, key, last.value))
            else TextAt(store.files, path, true) == TextAt(old(store.files), path, true)
    ensures var path := IndexPath(store.root);
            ReportStore.SameBut(old(store.files), store.files, {ReportStore.TempPath(path), path})
    ensures |IndexPath(store.root)| + 4 >= ReportStore.PATH_MAX ==> store.files == old(store.files)
    ensures var path := IndexPath(store.root);
            refreshed ==>
              && last.Success? && path in store.files
              && store.files[path] == NewText(if readable && path in old(store.files) then Some(old(store.files)[path]) else None,
                                              strtod, key, last.value)
  {
    hide NewText, ReportStore.SaveTrail, ReportStore.TempPath;
    refreshed := false;
    var path := ReportStore.JoinPath(store.root, "index.json");
    if path.Failure? || last.Failure? {
      return;
    }
    var text := BuildIndex(TextAt(store.files, path.value, readable), strtod, key, last.value);
    if |path.value| + 4 >= ReportStore.PATH_MAX {
      return;
    }
    ghost var disk, start := store.files, store.ops;
    var status := store.Save(path.value, text.value);
    ReportStore.SaveKeepsOthers(disk, path.value, text.value, store.host, start);
    if status == Fine {
      ReportStore.SavedIsThere(disk, path.value, text.value, store.host, start);
      refreshed := true;
    } else {
      TempIsOther(path.value);
    }
  }

  lemma TempIsOther(path: cstring)
    requires |path| + 4 < ReportStore.PATH_MAX
    ensures ReportStore.TempPath(path) != path
  {
    assert |path + ".tmp"| > |path|;
  }

  // ---- writing a report ----

  /** A complete listing lists exactly the files of the directory, and none is missing that holds any. */
  ghost predicate Faithful(list: ReportStore.Disk -> Result<Walk.Listing>, dir: cstring) {
    forall disk ::
      && (list(disk).Success? && list(disk).value.end == NotFound ==> History.Lists(disk, dir, list(disk).value.entries))
      && (list(disk) == Failure(NotFound) ==> History.ReportsIn(disk, dir) == {})
  }

  /** What LastScan returns for a listing. */
  ghost predicate IsLast(listing: Result<Walk.Listing>, last: LastScan.Last) {
    || (listing == Failure(NotFound) && last == LastScan.NONE)
    || (listing.Success? && listing.value.end == NotFound
        && last == LastScan.LastOf(LastScan.Names(listing.value.entries)))
  }

  /** A directory that is listed faithfully gives a last scan that agrees with its reports. */
  lemma ListedAgrees(disk: ReportStore.Disk, dir: cstring, list: ReportStore.Disk -> Result<Walk.Listing>,
                     last: LastScan.Last)
    requires Faithful(list, dir) && History.OnlyReports(disk, dir) && IsLast(list(disk), last)
    ensures History.Agrees(disk, dir, last) && last.reportCount == |History.ReportsIn(disk, dir)|
  {
    hide LastScan.Names, LastScan.LastOf, History.ReportsIn, History.OnlyReports, History.Lists, History.IsLatest;
    if list(disk).Success? {
      History.ListingAgrees(disk, dir, list(disk).value.entries);
    }
  }

  /** The index says of the device what its reports on disk say. */
  ghost predicate IndexSays(disk: ReportStore.Disk, root: cstring, device: cstring, strtod: string -> real) {
    var path := Walk.Join(root, "index.json");
    && path in disk
    && exists last: LastScan.Last ::
         History.Agrees(disk, History.DirOf(root, device), last) && Shows(Parse(disk[path], strtod), device, last)
  }

  /** The refresh touches no report. */
  lemma RefreshKeepsReports(root: cstring, device: cstring, before: ReportStore.Disk, after: ReportStore.Disk)
    requires var path := IndexPath(root);
             |path| + 4 < ReportStore.PATH_MAX && ReportStore.SameBut(before, after, {ReportStore.TempPath(path), path})
    ensures var dir := History.DirOf(root, device);
            History.ReportsIn(after, dir) == History.ReportsIn(before, dir)
  {
    hide ReportStore.TempPath, History.Inside;
    History.IndexIsOutside(root, device);
    History.TempIsOutside(History.DirOf(root, device), IndexPath(root));
  }

  lemma SameReportsAgree(dir: cstring, before: ReportStore.Disk, after: ReportStore.Disk, last: LastScan.Last)
    requires History.Agrees(before, dir, last) && History.ReportsIn(after, dir) == History.ReportsIn(before, dir)
    ensures History.Agrees(after, dir, last)
  {
    hide History.ReportsIn;
    if History.ReportsIn(before, dir) != {} {
      var r: LastScan.Report :| History.IsLatest(before, dir, r) && LastScan.Tells(last, r, |History.ReportsIn(before, dir)|);
      assert History.IsLatest(after, dir, r);
    }
  }

  lemma SameReportsOnly(dir: cstring, before: ReportStore.Disk, after: ReportStore.Disk)
    requires History.OnlyReports(before, dir) && History.ReportsIn(after, dir) == History.ReportsIn(before, dir)
    ensures History.OnlyReports(after, dir)
  {
    hide History.Inside, LastScan.IsName;
    forall path | path in after && History.IsReportOf(dir, path)
      ensures exists r: LastScan.Report :: LastScan.IsName(History.NameIn(dir, path), r)
    {
      assert path in History.ReportsIn(after, dir);
    }
  }

  /** write_report_file leaves the disk as it was or as the save of the report leaves it. */
  lemma WriteTrailEnds(root: cstring, device: cstring, report: LastScan.Report, content: string,
                       disk: ReportStore.Disk, host: ReportStore.Host, ops: nat)
    requires History.Fits(root, History.Write(device, report, "json", content))
    ensures var step := History.Step(History.Write(device, report, "json", content), host, ops + 1, None);
            var end := ReportStore.End(disk, ReportStore.WriteTrail(disk, root, device, report.id, CStr(Iso(report.stamp)),
                                                                    "json", content, host, ops));
            end == disk || end == ReportStore.Left(disk, History.AttemptOf(root, step))
  {
    hide ReportStore.Target, Iso, Walk.Join, History.NameOf, ReportStore.SaveTrail, ReportStore.DeviceDir, History.Fits;
    History.TargetIs(root, device, report, "json", content);
  }

  lemma WriteKeepsReports(root: cstring, device: cstring, report: LastScan.Report, content: string,
                          disk: ReportStore.Disk, host: ReportStore.Host, ops: nat)
    requires ReportStore.Reports(host) && History.OnlyReports(disk, History.DirOf(root, device))
    requires History.Fits(root, History.Write(device, report, "json", content))
    ensures History.OnlyReports(
              ReportStore.End(disk, ReportStore.WriteTrail(disk, root, device, report.id, CStr(Iso(report.stamp)), "json",
                                                           content, host, ops)),
              History.DirOf(root, device))
  {
    hide History.OnlyReports, History.Fits, History.AttemptOf, History.KeepsNames, History.DirOf, ReportStore.WriteTrail,
         ReportStore.Left, ReportStore.End, ReportStore.Reports, Iso, IsStamp;
    var step := History.Step(History.Write(device, report, "json", content), host, ops + 1, None);
    OneFits(root, device, step);
    WriteTrailEnds(root, device, report, content, disk, host, ops);
    History.SaveKeepsReports(History.DirOf(root, device), disk, History.AttemptOf(root, step));
  }

  lemma OneFits(root: cstring, device: cstring, step: History.Step)
    requires ReportStore.Reports(step.host) && History.Fits(root, step.event)
    ensures History.KeepsNames(History.DirOf(root, device), History.AttemptOf(root, step))
  {
    hide History.Fits, History.CallOf, History.KeepsNames, ReportStore.Reports;
    History.AttemptsFit(root, device, [step], 0);
  }

  lemma WrittenPath(root: cstring, device: cstring, report: LastScan.Report, content: string)
    requires History.Fits(root, History.Write(device, report, "json", content))
    ensures ReportStore.Target(root, device, report.id, CStr(Iso(report.stamp)), "json")
         == Success(History.PathOf(History.DirOf(root, device), report))
  {
    hide ReportStore.Target, Iso, Walk.Join, History.NameOf;
    History.TargetIs(root, device, report, "json", content);
  }

  lemma AfterRefresh(root: cstring, device: cstring, before: ReportStore.Disk, after: ReportStore.Disk, path: cstring)
    requires History.OnlyReports(before, History.DirOf(root, device))
    requires ReportStore.SameBut(before, after, {ReportStore.TempPath(IndexPath(root)), IndexPath(root)})
    requires |IndexPath(root)| + 4 >= ReportStore.PATH_MAX ==> after == before
    requires path in before && History.IsReportOf(History.DirOf(root, device), path)
    ensures var dir := History.DirOf(root, device);
            && History.ReportsIn(after, dir) == History.ReportsIn(before, dir) && History.OnlyReports(after, dir)
            && path in after && after[path] == before[path]
  {
    hide ReportStore.TempPath, History.Inside, History.OnlyReports, IndexPath;
    if |IndexPath(root)| + 4 < ReportStore.PATH_MAX {
      History.IndexIsOutside(root, device);
      IndexPathIs(root);
      History.TempIsOutside(History.DirOf(root, device), IndexPath(root));
      RefreshKeepsReports(root, device, before, after);
      SameReportsOnly(History.DirOf(root, device), before, after);
    }
  }

  lemma IndexPathIs(root: cstring)
    ensures IndexPath(root) == Walk.Join(root, "index.json")
  {
  }

  lemma NewIndexSays(root: cstring, device: cstring, before: ReportStore.Disk, after: ReportStore.Disk,
                     last: LastScan.Last, existing: Option<string>, strtod: string -> real)
    requires var dir := History.DirOf(root, device);
             History.Agrees(before, dir, last) && History.ReportsIn(after, dir) == History.ReportsIn(before, dir)
    requires CorrectlyRounded(strtod) && last.reportCount <= TWO_TO_THE_53
    requires TextAt(after, IndexPath(root), true) == Some(NewText(existing, strtod, device, last))
    ensures IndexSays(after, root, device, strtod)
  {
    hide History.Agrees, History.ReportsIn, Shows, NewText, CorrectlyRounded, Walk.Join;
    SameReportsAgree(History.DirOf(root, device), before, after, last);
    NewShows(existing, strtod, device, last);
  }

  /**
    An id and a timestamp that fit a report's name, in a directory that holds only reports and is
    listed faithfully.
   */
  ghost predicate Ordinary(root: cstring, device: cstring, scanId: cstring, timestamp: cstring, content: string,
                           disk: ReportStore.Disk, list: ReportStore.Disk -> Result<Walk.Listing>,
                           report: LastScan.Report)
  {
    && IsStamp(report.stamp) && scanId == report.id && timestamp == CStr(Iso(report.stamp))
    && History.Fits(root, History.Write(device, report, "json", content))
    && History.OnlyReports(disk, History.DirOf(root, device)) && Faithful(list, History.DirOf(root, device))
  }

  /** What write_report_file will leave in an ordinary store. */
  lemma BeforeWrite(store: ReportStore.Store, device: cstring, scanId: cstring, timestamp: cstring, content: string,
                    list: ReportStore.Disk -> Result<Walk.Listing>, report: LastScan.Report)
    requires store.Valid()
    requires Ordinary(store.root, device, scanId, timestamp, content, store.files, list, report)
    ensures var (root, dir) := (store.root, History.DirOf(store.root, device));
            && IsStamp(report.stamp) && Faithful(list, dir)
            && ReportStore.Target(root, device, scanId, timestamp, "json") == Success(History.PathOf(dir, report))
            && History.IsReportOf(dir, History.PathOf(dir, report))
            && History.OnlyReports(
                 ReportStore.End(store.files, ReportStore.WriteTrail(store.files, root, device, scanId, timestamp, "json",
                                                                     content, store.host, store.ops)),
                 dir)
  {
    hide History.OnlyReports, History.DirOf, ReportStore.WriteTrail, ReportStore.Target, ReportStore.End,
         History.IsReportOf, Faithful, Iso;
    WrittenPath(store.root, device, report, content);
    History.PathIsReport(History.DirOf(store.root, device), report);
    WriteKeepsReports(store.root, device, report, content, store.files, store.host, store.ops);
  }

  /**
    usbs_store_write_report: the report, then the index.  In an ordinary store, once both are
    reported as done, the report is on disk as it was given and the index says of the device how many
    reports it has and which scan no other is later than.
   */
  method WriteReport(store: ReportStore.Store, device: cstring, scanId: cstring, timestamp: cstring, content: string,
                     list: ReportStore.Disk -> Result<Walk.Listing>, readable: bool, strtod: string -> real,
                     ghost report: LastScan.Report)
    returns (r: Result<cstring>, refreshed: bool)
    requires store.Valid()
    modifies store
    ensures store.Valid()
    ensures var t := ReportStore.WriteTrail(old(store.files), store.root, device, scanId, timestamp, "json", content,
                                            store.host, old(store.ops));
            if t.status == Fine then r == ReportStore.Target(store.root, device, scanId, timestamp, "json")
            else r == Failure(t.status) && !refreshed && store.files == ReportStore.End(old(store.files), t)
    ensures var dir := History.DirOf(store.root, device);
            Ordinary(store.root, device, scanId, timestamp, content, old(store.files), list, report) ==>
              && History.OnlyReports(store.files, dir)
              && (r.Success? ==>
                    && IsStamp(report.stamp) && r.value == History.PathOf(dir, report)
                    && r.value in store.files && store.files[r.value] == content)
              && (refreshed && CorrectlyRounded(strtod) && |History.ReportsIn(store.files, dir)| <= TWO_TO_THE_53 ==>
                    IndexSays(store.files, store.root, device, strtod))
  {
    hide History.OnlyReports, History.Fits, History.DirOf, History.PathOf, History.ReportsIn, History.IsReportOf,
         ReportStore.WriteTrail, ReportStore.Target, ReportStore.SameBut, ReportStore.TempPath, Iso, Faithful, NewText,
         EntryFor, Ordinary, LastScan.Names, LastScan.LastOf, CorrectlyRounded, IndexSays, IndexPath, History.Agrees;
    refreshed := false;
    ghost var disk, start := store.files, store.ops;
    ghost var ordinary := Ordinary(store.root, device, scanId, timestamp, content, disk, list, report);
    if ordinary {
      BeforeWrite(store, device, scanId, timestamp, content, list, report);
    }
    r := store.WriteReportFile(device, scanId, timestamp, "json", content);
    if r.Failure? {
      return;
    }
    ghost var written := store.files;
    var last := LastScan.LastScan(list(store.files));
    refreshed := RefreshIndex(store, device, last, readable, strtod);
    if ordinary {
      AfterRefresh(store.root, device, written, store.files, r.value);
      if refreshed && CorrectlyRounded(strtod) {
        ListedAgrees(written, History.DirOf(store.root, device), list, last.value);
        if last.value.reportCount <= TWO_TO_THE_53 {
          NewIndexSays(store.root, device, written, store.files, last.value,
                       TextAt(written, IndexPath(store.root), readable), strtod);
        }
      }
    }
  }
}
