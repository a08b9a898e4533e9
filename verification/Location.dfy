/**
  The location policy of src/core/location.c: where a path is decides how a finding is weighed.
  A path is judged by its components, and only by the first 96 of them.
 */
module Location {
  import opened CText
  import opened ScanModel

  const MAX_COMPONENTS := 96

  datatype Kind =
    | Ordinary
    | UserExposed
    | OsShortcuts
    | OsComponentStore
    | RecentItems
    | DependencyTree
    | SelfTestFixtures

  /** Only a device on a known bus other than USB is tuned. */
  predicate PolicyApplies(bus: Bus) {
    bus != Usb && bus != UnknownBus
  }

  const EXPOSED_TEXT: cstring := "user-facing location"
  const STORE_TEXT: cstring := "Windows component store"
  const RECENT_TEXT: cstring := "Windows Recent Items"
  const TREE_TEXT: cstring := "package dependency tree"
  const FIXTURES_TEXT: cstring := "USB Sentinel test fixtures"

  function KindText(kind: Kind): cstring {
    match kind
    case Ordinary => "ordinary location"
    case UserExposed => EXPOSED_TEXT
    case OsShortcuts => "Start Menu"
    case OsComponentStore => STORE_TEXT
    case RecentItems => RECENT_TEXT
    case DependencyTree => TREE_TEXT
    case SelfTestFixtures => FIXTURES_TEXT
  }

  /** usbs_location_relative: what follows the volume path, when the path starts with it. */
  function Relative(volume: cstring, full: cstring): cstring {
    if volume != "" && volume <= full then full[|volume|..] else full
  }

  // ---- components ----

  predicate IsSep(c: char) {
    c == '\\' || c == '/'
  }

  /** How many characters come before the first separator. */
  function NameLength(path: string): (n: nat)
    ensures n <= |path|
    ensures forall i | 0 <= i < n :: !IsSep(path[i])
    ensures n < |path| ==> IsSep(path[n])
  {
    if path == "" || IsSep(path[0]) then 0 else 1 + NameLength(path[1..])
  }

  /** Every maximal run of characters that are not separators. */
  function Components(path: string): seq<string>
    decreases |path|
  {
    if path == "" then []
    else if IsSep(path[0]) then Components(path[1..])
    else
      var n := NameLength(path);
      [path[..n]] + Components(path[n..])
  }

  function Take<T>(s: seq<T>, cap: nat): (t: seq<T>)
    ensures t <= s && |t| <= cap
  {
    if |s| <= cap then s else s[..cap]
  }

  /** Names as a path holds them. */
  predicate AreNames(c: seq<string>) {
    forall i | 0 <= i < |c| :: c[i] != "" && forall j | 0 <= j < |c[i]| :: !IsSep(c[i][j])
  }

  lemma {:induction false} ComponentsAreNames(path: string)
    ensures AreNames(Components(path))
    decreases |path|
  {
    if path != "" {
      if IsSep(path[0]) {
        ComponentsAreNames(path[1..]);
      } else {
        ComponentsAreNames(path[NameLength(path)..]);
      }
    }
  }

  /** Joining two paths with a separator joins their components. */
  lemma {:induction false} ComponentsOfJoin(path: string, sep: char, more: string)
    requires IsSep(sep)
    ensures Components(path + [sep] + more) == Components(path) + Components(more)
    decreases |path|
  {
    hide Components, NameLength, IsSep;
    var whole := path + [sep] + more;
    if path == "" {
      SkipOne(whole);
      EmptyPath();
      assert whole[1..] == more && [] + Components(more) == Components(more);
    } else if IsSep(path[0]) {
      SkipOne(whole);
      SkipOne(path);
      assert whole[1..] == path[1..] + [sep] + more;
      ComponentsOfJoin(path[1..], sep, more);
    } else {
      var n := NameLength(path);
      NameFirst(path);
      NameFirst(whole);
      NameLengthIs(whole, n);
      assert whole[..n] == path[..n] && whole[n..] == path[n..] + [sep] + more;
      ComponentsOfJoin(path[n..], sep, more);
      assert [path[..n]] + (Components(path[n..]) + Components(more))
          == [path[..n]] + Components(path[n..]) + Components(more);
    }
  }

  lemma SkipOne(path: string)
    requires path != "" && IsSep(path[0])
    ensures Components(path) == Components(path[1..])
  {
  }

  lemma NameFirst(path: string)
    requires path != "" && !IsSep(path[0])
    ensures NameLength(path) > 0
    ensures Components(path) == [path[..NameLength(path)]] + Components(path[NameLength(path)..])
  {
  }

  lemma {:induction false} NameLengthIs(path: string, n: nat)
    requires n < |path| && IsSep(path[n]) && forall i | 0 <= i < n :: !IsSep(path[i])
    ensures NameLength(path) == n
  {
    if n > 0 {
      NameLengthIs(path[1..], n - 1);
    }
  }

  /** The names with a separator between each two. */
  function PathText(c: seq<string>, sep: char): string {
    if c == [] then "" else if |c| == 1 then c[0] else c[0] + [sep] + PathText(c[1..], sep)
  }

  lemma {:induction false} WholeName(name: string)
    requires forall j | 0 <= j < |name| :: !IsSep(name[j])
    ensures NameLength(name) == |name|
  {
    if name != "" {
      WholeName(name[1..]);
    }
  }

  lemma OneName(name: string)
    requires name != "" && forall j | 0 <= j < |name| :: !IsSep(name[j])
    ensures Components(name) == [name]
  {
    WholeName(name);
    EmptyPath();
    assert name[..|name|] == name && name[|name|..] == "";
    assert Components(name) == [name] + Components("");
  }

  lemma {:induction false} ComponentsOfText(c: seq<string>, sep: char)
    requires AreNames(c) && IsSep(sep)
    ensures Components(PathText(c, sep)) == c
  {
    hide Components, IsSep;
    EmptyPath();
    if c != [] {
      OneName(c[0]);
      if |c| > 1 {
        ComponentsOfJoin(c[0], sep, PathText(c[1..], sep));
        ComponentsOfText(c[1..], sep);
      }
      assert c == [c[0]] + c[1..];
    }
  }

  /** The component lists are exactly the lists of non-empty names without separators. */
  lemma ComponentListsAre(c: seq<string>)
    ensures (exists path: string :: Components(path) == c) <==> AreNames(c)
  {
    hide Components, AreNames;
    if AreNames(c) {
      assert IsSep('/');
      ComponentsOfText(c, '/');
      assert Components(PathText(c, '/')) == c;
    }
    forall path: string | Components(path) == c ensures AreNames(c) {
      ComponentsAreNames(path);
    }
  }

  method SkipSeparators(path: string, from: nat) returns (p: nat)
    requires from <= |path|
    ensures from <= p <= |path| && (p < |path| ==> !IsSep(path[p]))
    ensures Components(path[p..]) == Components(path[from..])
  {
    p := from;
    while p < |path| && IsSep(path[p])
      invariant from <= p <= |path| && Components(path[p..]) == Components(path[from..])
    {
      assert path[p..][1..] == path[p + 1..];
      p := p + 1;
    }
  }

  method EndOfName(path: string, from: nat) returns (p: nat)
    requires from < |path| && !IsSep(path[from])
    ensures from < p <= |path|
    ensures Components(path[from..]) == [path[from..p]] + Components(path[p..])
  {
    hide Components;
    p := from;
    while p < |path| && !IsSep(path[p])
      invariant from <= p <= |path|
      invariant forall i | from <= i < p :: !IsSep(path[i])
    {
      p := p + 1;
    }
    FirstComponent(path, from, p);
  }

  lemma FirstComponent(path: string, from: nat, p: nat)
    requires from < p <= |path| && (p < |path| ==> IsSep(path[p]))
    requires forall i | from <= i < p :: !IsSep(path[i])
    ensures Components(path[from..]) == [path[from..p]] + Components(path[p..])
  {
    var n := NameLength(path[from..]);
    assert n <= |path| - from;
    assert n < |path| - from ==> IsSep(path[from..][n]) && path[from..][n] == path[from + n];
    assert p < |path| ==> path[from..][p - from] == path[p];
    assert n == p - from;
    assert path[from..][..n] == path[from..p] && path[from..][n..] == path[p..];
  }

  /** split_components: fills `out` until the path or the array ends. */
  method Split(path: cstring, out: array<string>) returns (count: nat)
    modifies out
    ensures count <= out.Length && out[..count] == Take(Components(path), out.Length)
  {
    hide Components, Take;
    count := 0;
    var p := 0;
    assert path[0..] == path;
    EmptyPath();
    while p < |path| && count < out.Length
      invariant 0 <= p <= |path| && count <= out.Length
      invariant out[..count] + Components(path[p..]) == Components(path)
      decreases |path| - p
    {
      p := SkipSeparators(path, p);
      if p == |path| {
        break;
      }
      var start := p;
      p := EndOfName(path, start);
      ghost var before := out[..count];
      out[count] := path[start..p];
      count := count + 1;
      assert out[..count] == before + [path[start..p]];
      Regroup(before, path[start..p], Components(path[p..]));
    }
    if p == |path| {
      assert path[p..] == "";
    }
    TakeIs(out[..count], Components(path[p..]), out.Length);
  }

  lemma Regroup(front: seq<string>, name: string, rest: seq<string>)
    ensures front + ([name] + rest) == front + [name] + rest
  {
  }

  lemma TakeIs(front: seq<string>, rest: seq<string>, cap: nat)
    requires |front| <= cap && (rest == [] || |front| == cap)
    ensures Take(front + rest, cap) == front
  {
  }

  lemma EmptyPath()
    ensures Components("") == []
  {
  }

  // ---- the rules ----

  /** The components from `at` on start with `names`, case-insensitively. */
  predicate SeqAt(c: seq<string>, at: nat, names: seq<string>) {
    at + |names| <= |c| && forall i | 0 <= i < |names| :: IEq(c[at + i], names[i])
  }

  predicate StartsWithIgnoringCase(s: string, prefix: string) {
    |prefix| <= |s| && IEq(s[..|prefix|], prefix)
  }

  predicate IsHex(c: char) {
    '0' <= Lower(c) <= '9' || 'a' <= Lower(c) <= 'f'
  }

  predicate IsWord(c: char) {
    'a' <= Lower(c) <= 'z' || '0' <= c <= '9' || c == '_'
  }

  const MARKER := "_scratch_"

  /** is_self_test_scratch_name. */
  predicate IsScratchName(s: string) {
    && |s| >= 23 && IsTestPrefix(s[..5])
    && AllHex(s[|s| - 8..]) && s[|s| - 17..|s| - 8] == MARKER && AllWord(s[5..|s| - 17])
  }

  predicate AllHex(s: string) {
    forall i | 0 <= i < |s| :: IsHex(s[i])
  }

  predicate AllWord(s: string) {
    forall i | 0 <= i < |s| :: IsWord(s[i])
  }

  predicate IsTestPrefix(s: string) {
    IEq(s, "test_")
  }

  /** test_<name>_scratch_<8 hex digits>, the letters of the first part and of the digits in any case. */
  ghost predicate IsScratch(s: string, test: string, name: string, hex: string) {
    && s == test + name + "_scratch_" + hex && LowerAll(test) == "test_" && name != "" && |hex| == 8
    && (forall i | 0 <= i < |name| ::
          'a' <= name[i] <= 'z' || 'A' <= name[i] <= 'Z' || '0' <= name[i] <= '9' || name[i] == '_')
    && (forall i | 0 <= i < 8 :: '0' <= hex[i] <= '9' || 'a' <= hex[i] <= 'f' || 'A' <= hex[i] <= 'F')
  }

  lemma TestPrefixIs(s: string)
    ensures IsTestPrefix(s) <==> LowerAll(s) == "test_"
  {
    assert LowerAll("test_") == "test_";
  }

  /** The rule matches exactly the names of that shape. */
  lemma ScratchNameShape(s: string)
    ensures IsScratchName(s) <==> exists test, name, hex :: IsScratch(s, test, name, hex)
  {
    hide IsTestPrefix;
    if IsScratchName(s) {
      var test, name, hex := s[..5], s[5..|s| - 17], s[|s| - 8..];
      TestPrefixIs(test);
      assert s == test + name + MARKER + hex;
      assert IsScratch(s, test, name, hex);
    }
    forall test, name, hex | IsScratch(s, test, name, hex) ensures IsScratchName(s) {
      ScratchParts(s, test, name, hex);
    }
  }

  lemma ScratchParts(s: string, test: string, name: string, hex: string)
    requires IsScratch(s, test, name, hex)
    ensures IsScratchName(s)
  {
    hide IsTestPrefix;
    TestPrefixIs(test);
    assert |LowerAll(test)| == |test| == 5;
    assert s[..5] == test;
    assert s[|s| - 17..|s| - 8] == MARKER;
    assert s[5..|s| - 17] == name;
    assert s[|s| - 8..] == hex;
  }

  /** Component `i` is a scratch directory under tests, at or below the build directory `b`. */
  predicate FixtureAt(c: seq<string>, b: nat, i: nat)
    requires b <= i < |c|
  {
    i >= 1 && IEq(c[b], "build") && IEq(c[i - 1], "tests") && IsScratchName(c[i])
  }

  predicate IsFixture(c: seq<string>) {
    exists b, i | 0 <= b <= i < |c| :: FixtureAt(c, b, i)
  }

  predicate IsDesktop(s: string) {
    IEq(s, "Desktop") || IEq(s, "Downloads")
  }

  const STARTUP_ALL := ["ProgramData", "Microsoft", "Windows", "Start Menu", "Programs", "Startup"]
  const STARTUP_USER := ["AppData", "Roaming", "Microsoft", "Windows", "Start Menu", "Programs", "Startup"]
  const TEMP_USER := ["AppData", "Local", "Temp"]

  predicate IsUserExposed(c: seq<string>) {
    || SeqAt(c, 0, STARTUP_ALL)
    || (&& |c| >= 3 && IEq(c[0], "Users")
        && (|| IsDesktop(c[2])
            || (|c| >= 4 && StartsWithIgnoringCase(c[2], "OneDrive") && IsDesktop(c[3]))
            || SeqAt(c, 2, STARTUP_USER)
            || SeqAt(c, 2, TEMP_USER)))
  }

  predicate IsTreeName(s: string) {
    IEq(s, "node_modules") || IEq(s, "site-packages") || IEq(s, ".gradle") || IEq(s, ".m2")
  }

  /** build/intermediates, or one module between them. */
  predicate IsIntermediates(c: seq<string>, i: nat)
    requires i < |c|
  {
    IEq(c[i], "intermediates") && ((i >= 1 && IEq(c[i - 1], "build")) || (i >= 2 && IEq(c[i - 2], "build")))
  }

  predicate IsDependencyTree(c: seq<string>) {
    exists i | 0 <= i < |c| :: IsTreeName(c[i]) || IsIntermediates(c, i)
  }

  const ROAMING := ["AppData", "Roaming"]

  /** The last component is the entry itself and cannot be the Recent directory. */
  predicate IsRecentItems(c: seq<string>) {
    && |c| >= 5 && IEq(c[0], "Users") && SeqAt(c, 2, ROAMING)
    && exists i | 4 <= i < |c| - 1 :: IEq(c[i], "Recent")
  }

  const WINSXS := ["Windows", "WinSxS"]
  const MENU_ALL := ["ProgramData", "Microsoft", "Windows", "Start Menu"]
  const MENU_USER := ["AppData", "Roaming", "Microsoft", "Windows", "Start Menu"]

  predicate IsOsShortcut(c: seq<string>) {
    SeqAt(c, 0, MENU_ALL) || (|c| >= 2 && IEq(c[0], "Users") && SeqAt(c, 2, MENU_USER))
  }

  function KindOf(c: seq<string>): Kind {
    if IsFixture(c) then SelfTestFixtures
    else if IsUserExposed(c) then UserExposed
    else if IsDependencyTree(c) then DependencyTree
    else if IsRecentItems(c) then RecentItems
    else if SeqAt(c, 0, WINSXS) then OsComponentStore
    else if IsOsShortcut(c) then OsShortcuts
    else Ordinary
  }

  function Classification(path: cstring): Kind {
    KindOf(Take(Components(path), MAX_COMPONENTS))
  }

  method MatchesFixture(c: seq<string>) returns (matches: bool)
    ensures matches == IsFixture(c)
  {
    hide IEq, IsScratchName;
    var seenBuild := false;
    for i := 0 to |c|
      invariant seenBuild == exists b | 0 <= b < i :: IEq(c[b], "build")
      invariant forall b, k | 0 <= b <= k < i :: !FixtureAt(c, b, k)
    {
      if IEq(c[i], "build") {
        seenBuild := true;
      }
      if seenBuild && i >= 1 && IEq(c[i - 1], "tests") && IsScratchName(c[i]) {
        ghost var b :| 0 <= b <= i && IEq(c[b], "build");
        assert FixtureAt(c, b, i);
        return true;
      }
    }
    return false;
  }

  method MatchesDependencyTree(c: seq<string>) returns (matches: bool)
    ensures matches == IsDependencyTree(c)
  {
    hide IsTreeName, IEq;
    for i := 0 to |c|
      invariant forall k | 0 <= k < i :: !IsTreeName(c[k]) && !IsIntermediates(c, k)
    {
      if IsTreeName(c[i]) {
        return true;
      }
      if IEq(c[i], "intermediates") && ((i >= 1 && IEq(c[i - 1], "build")) || (i >= 2 && IEq(c[i - 2], "build"))) {
        return true;
      }
    }
    return false;
  }

  method MatchesRecentItems(c: seq<string>) returns (matches: bool)
    ensures matches == IsRecentItems(c)
  {
    if |c| < 5 || !IEq(c[0], "Users") || !SeqAt(c, 2, ROAMING) {
      return false;
    }
    for i := 4 to |c| - 1
      invariant forall k | 4 <= k < i :: !IEq(c[k], "Recent")
    {
      if IEq(c[i], "Recent") {
        return true;
      }
    }
    return false;
  }

  /** usbs_location_classify. */
  method Classify(path: cstring) returns (kind: Kind)
    ensures kind == Classification(path)
  {
    hide IsFixture, IsUserExposed, IsDependencyTree, IsRecentItems, IsOsShortcut, SeqAt, Components;
    var comps := new string[MAX_COMPONENTS];
    var count := Split(path, comps);
    var c := comps[..count];
    var matches := MatchesFixture(c);
    if matches {
      return SelfTestFixtures;
    }
    if IsUserExposed(c) {
      return UserExposed;
    }
    matches := MatchesDependencyTree(c);
    if matches {
      return DependencyTree;
    }
    matches := MatchesRecentItems(c);
    if matches {
      return RecentItems;
    }
    if SeqAt(c, 0, WINSXS) {
      return OsComponentStore;
    }
    if IsOsShortcut(c) {
      return OsShortcuts;
    }
    return Ordinary;
  }

  // ---- appending components ----

  /** The order of precedence, first match first. */
  function Rank(kind: Kind): nat {
    match kind
    case SelfTestFixtures => 0
    case UserExposed => 1
    case DependencyTree => 2
    case RecentItems => 3
    case OsComponentStore => 4
    case OsShortcuts => 5
    case Ordinary => 6
  }

  lemma SeqAtGrows(c: seq<string>, more: seq<string>, at: nat, names: seq<string>)
    requires SeqAt(c, at, names)
    ensures SeqAt(c + more, at, names)
  {
    hide IEq;
  }

  lemma FixtureGrows(c: seq<string>, more: seq<string>)
    requires IsFixture(c)
    ensures IsFixture(c + more)
  {
    hide IEq, IsScratchName;
    var b, i :| 0 <= b <= i < |c| && FixtureAt(c, b, i);
    assert FixtureAt(c + more, b, i);
  }

  lemma UserExposedGrows(c: seq<string>, more: seq<string>)
    requires IsUserExposed(c)
    ensures IsUserExposed(c + more)
  {
    hide IEq, SeqAt, IsDesktop, StartsWithIgnoringCase;
    if SeqAt(c, 0, STARTUP_ALL) { SeqAtGrows(c, more, 0, STARTUP_ALL); }
    if SeqAt(c, 2, STARTUP_USER) { SeqAtGrows(c, more, 2, STARTUP_USER); }
    if SeqAt(c, 2, TEMP_USER) { SeqAtGrows(c, more, 2, TEMP_USER); }
  }

  lemma DependencyTreeGrows(c: seq<string>, more: seq<string>)
    requires IsDependencyTree(c)
    ensures IsDependencyTree(c + more)
  {
    hide IEq, IsTreeName;
    var i :| 0 <= i < |c| && (IsTreeName(c[i]) || IsIntermediates(c, i));
    assert IsTreeName((c + more)[i]) || IsIntermediates(c + more, i);
  }

  lemma RecentItemsGrows(c: seq<string>, more: seq<string>)
    requires IsRecentItems(c)
    ensures IsRecentItems(c + more)
  {
    hide IEq, SeqAt;
    SeqAtGrows(c, more, 2, ROAMING);
    var i :| 4 <= i < |c| - 1 && IEq(c[i], "Recent");
    assert IEq((c + more)[i], "Recent");
  }

  lemma OsShortcutGrows(c: seq<string>, more: seq<string>)
    requires IsOsShortcut(c)
    ensures IsOsShortcut(c + more)
  {
    hide IEq, SeqAt;
    if SeqAt(c, 0, MENU_ALL) { SeqAtGrows(c, more, 0, MENU_ALL); }
    if SeqAt(c, 2, MENU_USER) { SeqAtGrows(c, more, 2, MENU_USER); }
  }

  lemma RankGrows(c: seq<string>, more: seq<string>)
    ensures Rank(KindOf(c + more)) <= Rank(KindOf(c))
  {
    hide IsFixture, IsUserExposed, IsDependencyTree, IsRecentItems, IsOsShortcut, SeqAt;
    if IsFixture(c) { FixtureGrows(c, more); }
    if IsUserExposed(c) { UserExposedGrows(c, more); }
    if IsDependencyTree(c) { DependencyTreeGrows(c, more); }
    if IsRecentItems(c) { RecentItemsGrows(c, more); }
    if SeqAt(c, 0, WINSXS) { SeqAtGrows(c, more, 0, WINSXS); }
    if IsOsShortcut(c) { OsShortcutGrows(c, more); }
  }

  lemma TakeGrows<T>(c: seq<T>, more: seq<T>, cap: nat) returns (extra: seq<T>)
    ensures Take(c + more, cap) == Take(c, cap) + extra
  {
    if |c| >= cap {
      extra := [];
      assert Take(c + more, cap) == Take(c, cap) + [];
    } else {
      extra := Take(more, cap - |c|);
      assert Take(c + more, cap) == c + extra;
    }
  }

  /**
    Going deeper never moves a path to a later kind in the order of precedence, and past the
    96th component it changes nothing.
   */
  lemma DeeperIsNeverLater(path: cstring, sep: char, more: cstring)
    requires IsSep(sep)
    ensures Rank(Classification(path + [sep] + more)) <= Rank(Classification(path))
    ensures |Components(path)| >= MAX_COMPONENTS ==> Classification(path + [sep] + more) == Classification(path)
  {
    hide KindOf, Components;
    ComponentsOfJoin(path, sep, more);
    var c, d := Components(path), Components(more);
    var extra := TakeGrows(c, d, MAX_COMPONENTS);
    RankGrows(Take(c, MAX_COMPONENTS), extra);
    if |c| >= MAX_COMPONENTS {
      assert Take(c + d, MAX_COMPONENTS) == Take(c, MAX_COMPONENTS);
    }
  }

  /** The directories above a file, from the one below the root to its parent. */
  ghost predicate HasFixtureAncestor(c: seq<string>) {
    exists k | 0 < k < |c| :: KindOf(Take(c[..k], MAX_COMPONENTS)) == SelfTestFixtures
  }

  /**
    Pruning fixture directories is filtering: a file has a fixture directory somewhere above it
    exactly when its own parent directory is classified as one.
   */
  lemma PruningIsFiltering(c: seq<string>)
    requires c != []
    ensures HasFixtureAncestor(c)
       <==> |c| > 1 && KindOf(Take(c[..|c| - 1], MAX_COMPONENTS)) == SelfTestFixtures
    ensures HasFixtureAncestor(c) ==> KindOf(Take(c, MAX_COMPONENTS)) == SelfTestFixtures
  {
    hide KindOf;
    if HasFixtureAncestor(c) {
      var k :| 0 < k < |c| && KindOf(Take(c[..k], MAX_COMPONENTS)) == SelfTestFixtures;
      FixtureStays(c[..k], c[k..|c| - 1]);
      assert c[..k] + c[k..|c| - 1] == c[..|c| - 1];
      FixtureStays(c[..k], c[k..]);
      assert c[..k] + c[k..] == c;
    }
  }

  lemma FixtureStays(c: seq<string>, more: seq<string>)
    requires KindOf(Take(c, MAX_COMPONENTS)) == SelfTestFixtures
    ensures KindOf(Take(c + more, MAX_COMPONENTS)) == SelfTestFixtures
  {
    hide KindOf;
    var extra := TakeGrows(c, more, MAX_COMPONENTS);
    RankGrows(Take(c, MAX_COMPONENTS), extra);
  }
}
