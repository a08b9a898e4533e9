/** The JSON the web interface answers with (src/gui_web/gui_web_app.c): the other callers of the writer. */
module WebJson {
  import opened CText
  import opened ScanModel
  import opened JsonSyntax
  import opened JsonMembers
  import W = JsonWriter
  import D = JsonDocument
  import R = Report

  const SAFE_ID: cstring := "safe_id"
  const LABEL: cstring := "label"
  const SCANNABLE: cstring := "scannable"
  const BUSY: cstring := "busy"
  const DONE: cstring := "done"
  const FILES_SCANNED: cstring := "files_scanned"
  const BYTES_SCANNED: cstring := "bytes_scanned"
  const ERROR: cstring := "error"

  /** A device as the interface lists it. */
  datatype Listed = Listed(safeId: cstring, title: cstring, device: Device, scannable: bool)

  function Names(l: Listed): seq<Member> {
    [
      Text(SAFE_ID, l.safeId),
      Text(R.IDENTITY, l.device.identity),
      Text(LABEL, l.title),
      Text(R.BUS_TYPE, BusText(l.device.bus)),
      Text(R.VENDOR, l.device.vendor),
      Text(R.PRODUCT, l.device.product),
      Text(R.FILESYSTEM, l.device.filesystem)
    ]
  }

  function Volume(l: Listed): seq<Member> {
    [
      Count(R.CAPACITY_BYTES, l.device.capacityBytes),
      Count(R.FREE_BYTES, l.device.freeBytes),
      Flag(R.MEDIA_PRESENT, l.device.mediaPresent),
      Flag(SCANNABLE, l.scannable),
      Member(R.MOUNT_POINTS, Array(R.Strings(l.device.mountPoints)))
    ]
  }

  function ListedTree(l: Listed): Value {
    Object(Names(l) + Volume(l))
  }

  /** Every USB volume, with or without media, and nothing else. */
  function Shown(devices: seq<Listed>): seq<Value> {
    if devices == [] then []
    else
      var l := devices[|devices| - 1];
      Shown(devices[..|devices| - 1]) + if l.device.bus == Usb then [ListedTree(l)] else []
  }

  function ProgressMembers(busy: bool, done: bool, files: nat, bytes: nat, status: Status): seq<Member> {
    [Flag(BUSY, busy), Flag(DONE, done), Count(FILES_SCANNED, files), Count(BYTES_SCANNED, bytes)]
    + if done && status != Fine then [Text(ERROR, StatusText(status))] else []
  }

  // ---- every tree is small ----

  lemma ListedIsShallow(l: Listed)
    ensures Shallow(ListedTree(l), 1)
  {
    var ms := Names(l) + Volume(l);
    assert Shallow(Array(R.Strings(l.device.mountPoints)), 2);
    forall i | 0 <= i < |ms| ensures Shallow(ms[i].value, 2) {
      if i != 11 {
        assert R.IsLeaf(ms[i].value);
      }
    }
  }

  lemma {:induction false} ShownIsShallow(devices: seq<Listed>)
    ensures forall i | 0 <= i < |Shown(devices)| :: Shallow(Shown(devices)[i], 1)
    decreases |devices|
  {
    hide ListedTree, Shallow;
    if devices != [] {
      ShownIsShallow(devices[..|devices| - 1]);
      ListedIsShallow(devices[|devices| - 1]);
    }
  }

  // ---- writing ----

  method WriteNames(w: W.Writer, l: Listed, ghost base: seq<Call>)
    requires w.Valid() && w.calls == base
    modifies w.Repr()
    ensures w.Valid() && w.calls == base + MemberCalls(Names(l))
  {
    hide Calls, MemberCalls, W.Writer.Valid;
    NoMembers(base);
    ghost var ms: seq<Member> := [];
    ms := PutText(w, SAFE_ID, l.safeId, base, ms);
    ms := PutText(w, R.IDENTITY, l.device.identity, base, ms);
    ms := PutText(w, LABEL, l.title, base, ms);
    ms := PutText(w, R.BUS_TYPE, BusText(l.device.bus), base, ms);
    ms := PutText(w, R.VENDOR, l.device.vendor, base, ms);
    ms := PutText(w, R.PRODUCT, l.device.product, base, ms);
    ms := PutText(w, R.FILESYSTEM, l.device.filesystem, base, ms);
    assert Names(l) == ms;
  }

  method WriteVolume(w: W.Writer, l: Listed, ghost base: seq<Call>, ghost before: seq<Member>)
    requires w.Valid() && w.calls == base + MemberCalls(before)
    modifies w.Repr()
    ensures w.Valid() && w.calls == base + MemberCalls(before + Volume(l))
  {
    hide Calls, MemberCalls, W.Writer.Valid;
    ghost var ms := before;
    ms := PutCount(w, R.CAPACITY_BYTES, l.device.capacityBytes, base, ms);
    ms := PutCount(w, R.FREE_BYTES, l.device.freeBytes, base, ms);
    ms := PutFlag(w, R.MEDIA_PRESENT, l.device.mediaPresent, base, ms);
    ms := PutFlag(w, SCANNABLE, l.scannable, base, ms);
    ghost var points := Member(R.MOUNT_POINTS, Array(R.Strings(l.device.mountPoints)));
    OneMore(w.calls, base, ms, points);
    w.Key(R.MOUNT_POINTS);
    R.WriteStrings(w, l.device.mountPoints);
    assert before + Volume(l) == ms + [points];
  }

  /** write_device_json. */
  method WriteListed(w: W.Writer, l: Listed)
    requires w.Valid()
    modifies w.Repr()
    ensures w.Valid() && w.calls == old(w.calls) + Calls(ListedTree(l))
  {
    hide Calls, MemberCalls, Names, Volume;
    w.BeginObject();
    ghost var base := w.calls;
    WriteNames(w, l, base);
    WriteVolume(w, l, base, Names(l));
    w.EndObject();
    ObjectCalls(old(w.calls), Names(l) + Volume(l));
  }

  lemma OneMoreShown(before: seq<Call>, base: seq<Call>, items: seq<Value>, v: Value)
    requires before == base + ItemCalls(items)
    ensures before + Calls(v) == base + ItemCalls(items + [v])
  {
    hide Calls, ItemCalls;
    OneMoreItem(before, base, items + [v], |items|);
    assert (items + [v])[..|items|] == items && (items + [v])[..|items| + 1] == items + [v];
  }

  /** handle_devices: the text of the USB volumes, in the order of the enumeration; it never fails. */
  method BuildDevices(devices: seq<Listed>) returns (r: Result<string>)
    ensures r == Success(Render(Array(Shown(devices))))
  {
    hide Calls, ItemCalls, Render, W.Run, W.Finish, W.Writer.Valid, ListedTree;
    var w := new W.Writer();
    w.BeginArray();
    ghost var base := w.calls;
    NoItems(base);
    for i := 0 to |devices|
      invariant w.Valid() && w.calls == base + ItemCalls(Shown(devices[..i])) && fresh(w.Repr())
    {
      assert devices[..i + 1][..i] == devices[..i];
      if devices[i].device.bus == Usb {
        OneMoreShown(w.calls, base, Shown(devices[..i]), ListedTree(devices[i]));
        WriteListed(w, devices[i]);
      } else {
        assert Shown(devices[..i]) + [] == Shown(devices[..i]);
      }
    }
    assert devices[..|devices|] == devices;
    w.EndArray();
    DevicesFinish(w.calls, devices);
    r := w.FinishDocument();
  }

  lemma NoItems(base: seq<Call>)
    ensures base == base + ItemCalls([])
  {
  }

  lemma DevicesFinish(calls: seq<Call>, devices: seq<Listed>)
    requires calls == [BeginArray] + ItemCalls(Shown(devices)) + [EndArray]
    ensures W.Finish(W.Run(W.INITIAL, calls)) == Success(Render(Array(Shown(devices))))
  {
    hide ItemCalls, Shown, Render, W.Run, W.Finish;
    ShownIsShallow(devices);
    ShallowNests(Array(Shown(devices)), 0);
    D.TreeFinishes(Array(Shown(devices)));
  }

  method WriteProgress(w: W.Writer, busy: bool, done: bool, files: nat, bytes: nat, status: Status,
                       ghost base: seq<Call>)
    requires w.Valid() && w.calls == base
    modifies w.Repr()
    ensures w.Valid() && w.calls == base + MemberCalls(ProgressMembers(busy, done, files, bytes, status))
  {
    hide Calls, MemberCalls, W.Writer.Valid, StatusText;
    NoMembers(base);
    ghost var ms: seq<Member> := [];
    ms := PutFlag(w, BUSY, busy, base, ms);
    ms := PutFlag(w, DONE, done, base, ms);
    ms := PutCount(w, FILES_SCANNED, files, base, ms);
    ms := PutCount(w, BYTES_SCANNED, bytes, base, ms);
    if done && status != Fine {
      ms := PutText(w, ERROR, StatusText(status), base, ms);
    }
    assert ms == ProgressMembers(busy, done, files, bytes, status);
  }

  /** handle_progress: the text of the fields read under the mutex; it never fails. */
  method BuildProgress(busy: bool, done: bool, files: nat, bytes: nat, status: Status) returns (r: Result<string>)
    ensures r == Success(Render(Object(ProgressMembers(busy, done, files, bytes, status))))
  {
    hide Calls, MemberCalls, Render, W.Run, W.Finish, W.Writer.Valid, StatusText;
    var w := new W.Writer();
    w.BeginObject();
    WriteProgress(w, busy, done, files, bytes, status, w.calls);
    w.EndObject();
    ProgressFinish(w.calls, ProgressMembers(busy, done, files, bytes, status));
    r := w.FinishDocument();
  }

  lemma ProgressFinish(calls: seq<Call>, ms: seq<Member>)
    requires calls == [BeginObject] + MemberCalls(ms) + [EndObject] && R.Leaves(ms)
    ensures W.Finish(W.Run(W.INITIAL, calls)) == Success(Render(Object(ms)))
  {
    hide MemberCalls, Render, W.Run, W.Finish;
    R.LeavesAreShallow(ms, 0);
    ShallowNests(Object(ms), 0);
    D.TreeFinishes(Object(ms));
  }
}
