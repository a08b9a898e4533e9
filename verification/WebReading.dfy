/** What the page in the browser reads of the answers of src/gui_web/gui_web_app.c, key by key. */
module WebReading {
  import opened CText
  import opened ScanModel
  import opened JsonSyntax
  import opened JsonReader
  import opened ReportReading
  import T = JsonRoundTrip
  import W = WebJson

  /** The state of a scan: an error only of one that is over and has failed. */
  ghost predicate TellsProgress(v: Value, busy: bool, done: bool, files: nat, bytes: nat, status: Status) {
    && Flags(v, "busy", busy) && Flags(v, "done", done)
    && Counts(v, "files_scanned", files) && Counts(v, "bytes_scanned", bytes)
    && if done && status != Fine then Says(v, "error", StatusText(status)) else Under(v, "error") == None
  }

  lemma ProgressTells(busy: bool, done: bool, files: nat, bytes: nat, status: Status)
    ensures TellsProgress(Object(W.ProgressMembers(busy, done, files, bytes, status)), busy, done, files, bytes, status)
  {
    hide First, StatusText;
    var ms := W.ProgressMembers(busy, done, files, bytes, status);
    FirstAt(ms, "busy", 0);
    FirstAt(ms, "done", 1);
    FirstAt(ms, "files_scanned", 2);
    FirstAt(ms, "bytes_scanned", 3);
    if done && status != Fine {
      FirstAt(ms, "error", 4);
    } else {
      Nowhere(ms, "error");
    }
  }

  lemma ProgressIsShallow(busy: bool, done: bool, files: nat, bytes: nat, status: Status)
    ensures Shallow(Object(W.ProgressMembers(busy, done, files, bytes, status)), 0)
  {
    hide StatusText;
  }

  /** The answer to a request for the progress parses, and every number is the one under the mutex. */
  lemma ProgressIsReadable(busy: bool, done: bool, files: nat, bytes: nat, status: Status, strtod: string -> real)
    requires T.ExactOnIntegers(strtod) && files <= TWO_TO_THE_53 && bytes <= TWO_TO_THE_53
    ensures var answer := Parse(Render(Object(W.ProgressMembers(busy, done, files, bytes, status))), strtod);
            answer.Success? && TellsProgress(answer.value, busy, done, files, bytes, status)
  {
    hide Parse, Render, StatusText, TellsProgress, T.ExactOnIntegers, Shallow;
    var v := Object(W.ProgressMembers(busy, done, files, bytes, status));
    ProgressTells(busy, done, files, bytes, status);
    ProgressIsShallow(busy, done, files, bytes, status);
    T.IntegersReadBack(v, strtod);
    T.ReadRendered(v, strtod);
  }

  /** A device of the list. */
  ghost predicate TellsListed(v: Value, l: W.Listed) {
    && Says(v, "safe_id", l.safeId) && Says(v, "identity", l.device.identity) && Says(v, "label", l.title)
    && Says(v, "bus_type", BusWord(l.device.bus)) && Says(v, "vendor", l.device.vendor) && Says(v, "product", l.device.product)
    && Says(v, "filesystem", l.device.filesystem) && Counts(v, "capacity_bytes", l.device.capacityBytes)
    && Counts(v, "free_bytes", l.device.freeBytes) && Flags(v, "media_present", l.device.mediaPresent)
    && Flags(v, "scannable", l.scannable) && TellsPoints(Under(v, "mount_points"), l.device.mountPoints)
  }

  lemma NamesTell(l: W.Listed)
    ensures var t := W.ListedTree(l);
            Says(t, "safe_id", l.safeId) && Says(t, "identity", l.device.identity) && Says(t, "label", l.title)
            && Says(t, "bus_type", BusWord(l.device.bus)) && Says(t, "vendor", l.device.vendor)
            && Says(t, "product", l.device.product) && Says(t, "filesystem", l.device.filesystem)
  {
    hide First, BusText, BusWord, W.Volume;
    var ms := W.ListedTree(l).members;
    WordsAre(Info, Ran, Completed, l.device.bus);
    FirstAt(ms, "safe_id", 0);
    FirstAt(ms, "identity", 1);
    FirstAt(ms, "label", 2);
    FirstAt(ms, "bus_type", 3);
    FirstAt(ms, "vendor", 4);
    FirstAt(ms, "product", 5);
    FirstAt(ms, "filesystem", 6);
  }

  lemma VolumeTells(l: W.Listed)
    ensures var t := W.ListedTree(l);
            Counts(t, "capacity_bytes", l.device.capacityBytes) && Counts(t, "free_bytes", l.device.freeBytes)
            && Flags(t, "media_present", l.device.mediaPresent) && Flags(t, "scannable", l.scannable)
            && TellsPoints(Under(t, "mount_points"), l.device.mountPoints)
  {
    hide First, BusText;
    var ms := W.ListedTree(l).members;
    FirstAt(ms, "capacity_bytes", 7);
    FirstAt(ms, "free_bytes", 8);
    FirstAt(ms, "media_present", 9);
    FirstAt(ms, "scannable", 10);
    FirstAt(ms, "mount_points", 11);
  }

  /** How many of the devices before the k-th are on the bus that is listed. */
  function UsbBefore(devices: seq<W.Listed>, k: nat): nat
    requires k <= |devices|
  {
    if k == 0 then 0 else UsbBefore(devices, k - 1) + if devices[k - 1].device.bus == Usb then 1 else 0
  }

  lemma {:induction false} UsbOfPrefix(devices: seq<W.Listed>, n: nat, k: nat)
    requires k <= n <= |devices|
    ensures UsbBefore(devices[..n], k) == UsbBefore(devices, k)
  {
    if k > 0 {
      UsbOfPrefix(devices, n, k - 1);
    }
  }

  lemma {:induction false} ShownAt(devices: seq<W.Listed>, k: nat)
    requires k < |devices|
    ensures |W.Shown(devices)| == UsbBefore(devices, |devices|)
    ensures devices[k].device.bus == Usb ==>
              UsbBefore(devices, k) < |W.Shown(devices)| && W.Shown(devices)[UsbBefore(devices, k)] == W.ListedTree(devices[k])
    decreases |devices|
  {
    hide W.ListedTree;
    var n := |devices| - 1;
    if n > 0 {
      ShownAt(devices[..n], if k < n then k else 0);
      UsbOfPrefix(devices, n, n);
      UsbOfPrefix(devices, n, k);
    }
  }

  /** The list has one element for each USB volume, in order, and it tells all of the volume. */
  lemma DevicesTell(devices: seq<W.Listed>, k: nat)
    requires k < |devices| && devices[k].device.bus == Usb
    ensures var (shown, at) := (W.Shown(devices), UsbBefore(devices, k));
            |shown| == UsbBefore(devices, |devices|) && at < |shown| && TellsListed(shown[at], devices[k])
  {
    hide W.ListedTree, W.Shown, Says, Counts, Flags, TellsPoints, BusWord;
    ShownAt(devices, k);
    NamesTell(devices[k]);
    VolumeTells(devices[k]);
  }
}
