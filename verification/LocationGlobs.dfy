/**
  The location rules of src/core/location.c as a list of patterns, first match first: every list of
  components gets the kind of the first pattern that matches it, in any case of the letters.
 */
module LocationGlobs {
  import opened CText
  import opened Location
  import Detection
  import ScanModel

  /** A pattern for one component, or for any number of them. */
  datatype Glob =
    | Name(name: string)      // this name, given in lower case
    | Starts(name: string)    // a name that starts so
    | Scratch                 // test_<name>_scratch_<8 hex digits>
    | One                     // any one component
    | Any                     // any number of components

  predicate MatchesName(g: Glob, s: string) {
    match g
    case Name(name) => LowerAll(s) == name
    case Starts(name) => name <= LowerAll(s)
    case Scratch => IsScratchName(s)
    case One => true
    case Any => false
  }

  predicate Match(p: seq<Glob>, c: seq<string>)
    decreases |p| + |c|
  {
    if p == [] then c == []
    else if p[0].Any? then Match(p[1..], c) || (c != [] && Match(p, c[1..]))
    else c != [] && MatchesName(p[0], c[0]) && Match(p[1..], c[1..])
  }

  /** The patterns of a kind. */
  function Patterns(kind: Kind): seq<seq<Glob>> {
    match kind
    case SelfTestFixtures => [[Any, Name("build"), Any, Name("tests"), Scratch, Any]]
    case UserExposed => [
      [Name("programdata"), Name("microsoft"), Name("windows"), Name("start menu"), Name("programs"), Name("startup"), Any],
      [Name("users"), One, Name("desktop"), Any],
      [Name("users"), One, Name("downloads"), Any],
      [Name("users"), One, Starts("onedrive"), Name("desktop"), Any],
      [Name("users"), One, Starts("onedrive"), Name("downloads"), Any],
      [Name("users"), One, Name("appdata"), Name("roaming"), Name("microsoft"), Name("windows"), Name("start menu"),
       Name("programs"), Name("startup"), Any],
      [Name("users"), One, Name("appdata"), Name("local"), Name("temp"), Any]]
    case DependencyTree => [
      [Any, Name("node_modules"), Any], [Any, Name("site-packages"), Any], [Any, Name(".gradle"), Any], [Any, Name(".m2"), Any],
      [Any, Name("build"), Name("intermediates"), Any], [Any, Name("build"), One, Name("intermediates"), Any]]
    case RecentItems => [[Name("users"), One, Name("appdata"), Name("roaming"), Any, Name("recent"), One, Any]]
    case OsComponentStore => [[Name("windows"), Name("winsxs"), Any]]
    case OsShortcuts => [
      [Name("programdata"), Name("microsoft"), Name("windows"), Name("start menu"), Any],
      [Name("users"), One, Name("appdata"), Name("roaming"), Name("microsoft"), Name("windows"), Name("start menu"), Any]]
    case Ordinary => [[Any]]
  }

  predicate Matched(kind: Kind, c: seq<string>) {
    exists i | 0 <= i < |Patterns(kind)| :: Match(Patterns(kind)[i], c)
  }

  /** The order in which the kinds are tried. */
  const ORDER: seq<Kind> :=
    [SelfTestFixtures, UserExposed, DependencyTree, RecentItems, OsComponentStore, OsShortcuts, Ordinary]

  // ---- patterns ----

  lemma {:induction false} MatchAny(c: seq<string>)
    ensures Match([Any], c)
  {
    assert [Any][1..] == [];
    if c != [] {
      MatchAny(c[1..]);
    }
  }

  lemma {:induction false} AfterAny(p: seq<Glob>, c: seq<string>)
    requires p != [] && p[0].Any?
    ensures Match(p, c) <==> exists k | 0 <= k <= |c| :: Match(p[1..], c[k..])
    decreases |c|
  {
    hide MatchesName;
    assert c[0..] == c;
    if c != [] {
      AfterAny(p, c[1..]);
      forall k | 0 <= k <= |c[1..]| ensures c[1..][k..] == c[k + 1..] {
      }
      if Match(p, c[1..]) {
        var k :| 0 <= k <= |c[1..]| && Match(p[1..], c[1..][k..]);
        assert Match(p[1..], c[k + 1..]);
      }
      forall k | 0 < k <= |c| && Match(p[1..], c[k..]) ensures Match(p, c[1..]) {
        assert c[1..][k - 1..] == c[k..];
      }
    }
  }

  lemma OneName(p: seq<Glob>, c: seq<string>)
    requires p != [] && !p[0].Any?
    ensures Match(p, c) <==> c != [] && MatchesName(p[0], c[0]) && Match(p[1..], c[1..])
  {
    hide MatchesName;
  }

  // ---- patterns of names ----

  function Named(names: seq<string>): (p: seq<Glob>)
    ensures |p| == |names|
    ensures forall i | 0 <= i < |p| :: p[i] == Name(names[i])
  {
    seq(|names|, i requires 0 <= i < |names| => Name(names[i]))
  }

  /** The components from `at` on have these names, given in lower case. */
  predicate NamesAt(c: seq<string>, at: nat, names: seq<string>) {
    at + |names| <= |c| && forall i | 0 <= i < |names| :: LowerAll(c[at + i]) == names[i]
  }

  lemma {:induction false} NamesFirst(names: seq<string>, rest: seq<Glob>, c: seq<string>)
    ensures Match(Named(names) + rest, c) <==> NamesAt(c, 0, names) && Match(rest, c[|names|..])
    decreases |names|
  {
    hide Match, LowerAll;
    var p := Named(names) + rest;
    if names == [] {
      assert p == rest && c[0..] == c;
    } else {
      assert p[1..] == Named(names[1..]) + rest && p[0] == Name(names[0]);
      OneName(p, c);
      if c != [] {
        NamesFirst(names[1..], rest, c[1..]);
        assert |names| <= |c| ==> c[1..][|names[1..]|..] == c[|names|..];
        assert NamesAt(c, 0, names) <==> LowerAll(c[0]) == names[0] && NamesAt(c[1..], 0, names[1..]) by {
          assert forall i | 0 < i < |names| && |names| <= |c| :: c[i] == c[1..][i - 1] && names[i] == names[1..][i - 1];
        }
      }
    }
  }

  lemma Rooted(names: seq<string>, c: seq<string>)
    ensures Match(Named(names) + [Any], c) <==> NamesAt(c, 0, names)
  {
    hide Match, LowerAll;
    NamesFirst(names, [Any], c);
    if NamesAt(c, 0, names) {
      MatchAny(c[|names|..]);
    }
  }

  /** Below the directory of a user. */
  lemma Users(p: seq<Glob>, c: seq<string>)
    ensures Match([Name("users"), One] + p, c) <==> |c| >= 2 && LowerAll(c[0]) == "users" && Match(p, c[2..])
  {
    hide Match, LowerAll;
    var whole := [Name("users"), One] + p;
    assert whole[1..] == [One] + p && whole[1..][1..] == p;
    OneName(whole, c);
    if c != [] {
      OneName(whole[1..], c[1..]);
      assert |c| >= 2 ==> c[1..][1..] == c[2..];
    }
  }

  lemma NamesBelow(c: seq<string>, at: nat, names: seq<string>)
    requires at <= |c|
    ensures NamesAt(c[at..], 0, names) <==> NamesAt(c, at, names)
  {
    hide LowerAll;
    assert forall i | 0 <= i < |c| - at :: c[at..][i] == c[at + i];
  }

  lemma SeqAtIs(c: seq<string>, at: nat, names: seq<string>, lower: seq<string>)
    requires |names| == |lower| && forall i | 0 <= i < |names| :: LowerAll(names[i]) == lower[i]
    ensures SeqAt(c, at, names) <==> NamesAt(c, at, lower)
  {
    hide LowerAll;
  }

  lemma Same(s: string, t: string)
    requires |s| == |t| && forall i | 0 <= i < |s| :: Lower(s[i]) == t[i]
    ensures LowerAll(s) == t
  {
  }

  lemma LowerNames()
    ensures LowerAll("ProgramData") == "programdata" && LowerAll("Microsoft") == "microsoft"
    ensures LowerAll("Windows") == "windows" && LowerAll("Start Menu") == "start menu"
    ensures LowerAll("Programs") == "programs" && LowerAll("Startup") == "startup"
    ensures LowerAll("AppData") == "appdata" && LowerAll("Roaming") == "roaming"
    ensures LowerAll("Local") == "local" && LowerAll("Temp") == "temp" && LowerAll("WinSxS") == "winsxs"
  {
    Same("ProgramData", "programdata");
    Same("Microsoft", "microsoft");
    Same("Windows", "windows");
    Same("Start Menu", "start menu");
    Same("Programs", "programs");
    Same("Startup", "startup");
    Same("AppData", "appdata");
    Same("Roaming", "roaming");
    Same("Local", "local");
    Same("Temp", "temp");
    Same("WinSxS", "winsxs");
  }

  lemma LowerWords()
    ensures LowerAll("Users") == "users" && LowerAll("Desktop") == "desktop" && LowerAll("Downloads") == "downloads"
    ensures LowerAll("OneDrive") == "onedrive" && LowerAll("Recent") == "recent"
    ensures LowerAll("build") == "build" && LowerAll("tests") == "tests" && LowerAll("intermediates") == "intermediates"
    ensures LowerAll("node_modules") == "node_modules" && LowerAll("site-packages") == "site-packages"
    ensures LowerAll(".gradle") == ".gradle" && LowerAll(".m2") == ".m2"
  {
    Same("Users", "users");
    Same("Desktop", "desktop");
    Same("Downloads", "downloads");
    Same("OneDrive", "onedrive");
    Same("Recent", "recent");
    Same("build", "build");
    Same("tests", "tests");
    Same("intermediates", "intermediates");
    Same("node_modules", "node_modules");
    Same("site-packages", "site-packages");
    Same(".gradle", ".gradle");
    Same(".m2", ".m2");
  }

  // ---- the rules are the patterns ----

  const STARTUP := ["programdata", "microsoft", "windows", "start menu", "programs", "startup"]
  const USER_STARTUP := ["appdata", "roaming", "microsoft", "windows", "start menu", "programs", "startup"]
  const USER_MENU := ["appdata", "roaming", "microsoft", "windows", "start menu"]
  const MENU := ["programdata", "microsoft", "windows", "start menu"]

  lemma StoreIs(c: seq<string>)
    ensures SeqAt(c, 0, WINSXS) <==> Matched(OsComponentStore, c)
  {
    hide Match, SeqAt, NamesAt, LowerAll;
    LowerNames();
    SeqAtIs(c, 0, WINSXS, ["windows", "winsxs"]);
    Rooted(["windows", "winsxs"], c);
    var ps := Patterns(OsComponentStore);
    assert ps[0] == Named(["windows", "winsxs"]) + [Any];
  }

  /** A list of names below the directory of a user. */
  lemma UserNames(c: seq<string>, names: seq<string>)
    ensures Match([Name("users"), One] + (Named(names) + [Any]), c)
       <==> |c| >= 2 && LowerAll(c[0]) == "users" && NamesAt(c, 2, names)
  {
    hide Match, NamesAt, LowerAll;
    Users(Named(names) + [Any], c);
    if |c| >= 2 {
      Rooted(names, c[2..]);
      NamesBelow(c, 2, names);
    }
  }

  lemma MenuIs(c: seq<string>)
    ensures IsOsShortcut(c) <==> Matched(OsShortcuts, c)
  {
    hide Match, SeqAt, NamesAt, LowerAll;
    LowerNames();
    LowerWords();
    SeqAtIs(c, 0, MENU_ALL, MENU);
    SeqAtIs(c, 2, MENU_USER, USER_MENU);
    Rooted(MENU, c);
    UserNames(c, USER_MENU);
    var ps := Patterns(OsShortcuts);
    assert ps[0] == Named(MENU) + [Any];
    assert ps[1] == [Name("users"), One] + (Named(USER_MENU) + [Any]);
  }

  /** OneDrive, with or without the name of an organisation, and a directory in it. */
  lemma OneDriveIs(c: seq<string>, name: string)
    ensures Match([Name("users"), One] + ([Starts("onedrive")] + (Named([name]) + [Any])), c)
       <==> |c| >= 4 && LowerAll(c[0]) == "users" && StartsWithIgnoringCase(c[2], "OneDrive") && LowerAll(c[3]) == name
  {
    hide Match, LowerAll, StartsWithIgnoringCase, NamesAt, Named;
    var q := Named([name]) + [Any];
    var p := [Starts("onedrive")] + q;
    Users(p, c);
    if |c| >= 3 {
      OneName(p, c[2..]);
      assert p[1..] == q && p[0] == Starts("onedrive");
      assert c[2..][1..] == c[3..] && c[2..][0] == c[2];
      Rooted([name], c[3..]);
      NamesBelow(c, 3, [name]);
      NameAt(c, 3, name);
      StartsIs(c[2]);
    } else if |c| == 2 {
      OneName(p, c[2..]);
    }
  }

  lemma NameAt(c: seq<string>, at: nat, name: string)
    ensures NamesAt(c, at, [name]) <==> at < |c| && LowerAll(c[at]) == name
  {
    hide LowerAll;
    if NamesAt(c, at, [name]) {
      assert [name][0] == name && LowerAll(c[at + 0]) == [name][0];
    }
  }

  lemma StartsIs(s: string)
    ensures StartsWithIgnoringCase(s, "OneDrive") <==> "onedrive" <= LowerAll(s)
  {
    LowerWords();
    if |s| >= 8 {
      assert LowerAll(s)[..8] == LowerAll(s[..8]);
    }
  }

  lemma UserExposedIs(c: seq<string>)
    ensures IsUserExposed(c) <==> Matched(UserExposed, c)
  {
    hide Match, SeqAt, LowerAll, StartsWithIgnoringCase, Named;
    LowerNames();
    LowerWords();
    SeqAtIs(c, 0, STARTUP_ALL, STARTUP);
    SeqAtIs(c, 2, STARTUP_USER, USER_STARTUP);
    SeqAtIs(c, 2, TEMP_USER, ["appdata", "local", "temp"]);
    Rooted(STARTUP, c);
    UserNames(c, ["desktop"]);
    UserNames(c, ["downloads"]);
    OneDriveIs(c, "desktop");
    OneDriveIs(c, "downloads");
    UserNames(c, USER_STARTUP);
    UserNames(c, ["appdata", "local", "temp"]);
    NameAt(c, 2, "desktop");
    NameAt(c, 2, "downloads");
    assert NamesAt(c, 2, USER_STARTUP) || NamesAt(c, 2, ["appdata", "local", "temp"]) ==> |c| >= 3;
    UserPatterns();
    hide NamesAt, Patterns;
    UserMatched(c);
  }

  lemma UserPatterns()
    ensures Patterns(UserExposed)[0] == Named(STARTUP) + [Any]
    ensures Patterns(UserExposed)[1] == [Name("users"), One] + (Named(["desktop"]) + [Any])
    ensures Patterns(UserExposed)[2] == [Name("users"), One] + (Named(["downloads"]) + [Any])
    ensures Patterns(UserExposed)[3] == [Name("users"), One] + ([Starts("onedrive")] + (Named(["desktop"]) + [Any]))
    ensures Patterns(UserExposed)[4] == [Name("users"), One] + ([Starts("onedrive")] + (Named(["downloads"]) + [Any]))
    ensures Patterns(UserExposed)[5] == [Name("users"), One] + (Named(USER_STARTUP) + [Any])
    ensures Patterns(UserExposed)[6] == [Name("users"), One] + (Named(["appdata", "local", "temp"]) + [Any])
  {
  }

  lemma UserMatched(c: seq<string>)
    ensures Matched(UserExposed, c)
       <==> Match(Patterns(UserExposed)[0], c) || Match(Patterns(UserExposed)[1], c) || Match(Patterns(UserExposed)[2], c)
            || Match(Patterns(UserExposed)[3], c) || Match(Patterns(UserExposed)[4], c)
            || Match(Patterns(UserExposed)[5], c) || Match(Patterns(UserExposed)[6], c)
  {
    hide Match;
  }

  // ---- names at any depth ----

  /** A name, then whatever the rest of the pattern matches. */
  lemma NameThen(name: string, rest: seq<Glob>, c: seq<string>)
    ensures Match([Name(name)] + rest, c) <==> c != [] && LowerAll(c[0]) == name && Match(rest, c[1..])
  {
    hide Match, LowerAll;
    var p := [Name(name)] + rest;
    OneName(p, c);
    assert p[1..] == rest;
  }

  lemma OneThen(rest: seq<Glob>, c: seq<string>)
    ensures Match([One] + rest, c) <==> c != [] && Match(rest, c[1..])
  {
    hide Match;
    var p := [One] + rest;
    OneName(p, c);
    assert p[1..] == rest;
  }

  lemma AnyThen(rest: seq<Glob>, c: seq<string>)
    ensures Match([Any] + rest, c) <==> exists k | 0 <= k <= |c| :: Match(rest, c[k..])
  {
    hide Match;
    var p := [Any] + rest;
    AfterAny(p, c);
    assert p[1..] == rest;
  }

  lemma NameAnywhere(name: string, c: seq<string>)
    ensures Match([Any] + ([Name(name)] + [Any]), c) <==> exists k | 0 <= k < |c| :: LowerAll(c[k]) == name
  {
    hide Match, LowerAll;
    var p := [Name(name)] + [Any];
    AnyThen(p, c);
    forall k | 0 <= k <= |c| ensures Match(p, c[k..]) <==> k < |c| && LowerAll(c[k]) == name {
      NameThen(name, [Any], c[k..]);
      if k < |c| {
        MatchAny(c[k..][1..]);
      }
    }
  }

  lemma PairHere(first: string, second: string, c: seq<string>, k: nat)
    requires k <= |c|
    ensures Match([Name(first)] + ([Name(second)] + [Any]), c[k..])
       <==> k + 1 < |c| && LowerAll(c[k + 1]) == second && LowerAll(c[k]) == first
  {
    hide Match, LowerAll;
    var q := [Name(second)] + [Any];
    NameThen(first, q, c[k..]);
    if k < |c| {
      NameThen(second, [Any], c[k..][1..]);
      if k + 1 < |c| {
        MatchAny(c[k..][1..][1..]);
      }
    }
  }

  lemma PairAnywhere(first: string, second: string, c: seq<string>)
    ensures Match([Any] + ([Name(first)] + ([Name(second)] + [Any])), c)
       <==> exists k | 1 <= k < |c| :: LowerAll(c[k]) == second && LowerAll(c[k - 1]) == first
  {
    hide Match, LowerAll;
    var p := [Name(first)] + ([Name(second)] + [Any]);
    AnyThen(p, c);
    if k :| 1 <= k < |c| && LowerAll(c[k]) == second && LowerAll(c[k - 1]) == first {
      PairHere(first, second, c, k - 1);
      assert Match(p, c[k - 1..]);
    }
    if k :| 0 <= k <= |c| && Match(p, c[k..]) {
      PairHere(first, second, c, k);
      assert LowerAll(c[k + 1]) == second && LowerAll(c[k + 1 - 1]) == first;
    }
  }

  lemma ApartHere(first: string, second: string, c: seq<string>, k: nat)
    requires k <= |c|
    ensures Match([Name(first)] + ([One] + ([Name(second)] + [Any])), c[k..])
       <==> k + 2 < |c| && LowerAll(c[k + 2]) == second && LowerAll(c[k]) == first
  {
    hide Match, LowerAll;
    var q := [Name(second)] + [Any];
    NameThen(first, [One] + q, c[k..]);
    if k < |c| {
      OneThen(q, c[k..][1..]);
      if k + 1 < |c| {
        NameThen(second, [Any], c[k..][1..][1..]);
        if k + 2 < |c| {
          MatchAny(c[k..][1..][1..][1..]);
        }
      }
    }
  }

  lemma PairApart(first: string, second: string, c: seq<string>)
    ensures Match([Any] + ([Name(first)] + ([One] + ([Name(second)] + [Any]))), c)
       <==> exists k | 2 <= k < |c| :: LowerAll(c[k]) == second && LowerAll(c[k - 2]) == first
  {
    hide Match, LowerAll;
    var p := [Name(first)] + ([One] + ([Name(second)] + [Any]));
    AnyThen(p, c);
    if k :| 2 <= k < |c| && LowerAll(c[k]) == second && LowerAll(c[k - 2]) == first {
      ApartHere(first, second, c, k - 2);
      assert Match(p, c[k - 2..]);
    }
    if k :| 0 <= k <= |c| && Match(p, c[k..]) {
      ApartHere(first, second, c, k);
      assert LowerAll(c[k + 2]) == second && LowerAll(c[k + 2 - 2]) == first;
    }
  }

  /** The rule in terms of lower-case names. */
  lemma TreeNames(c: seq<string>)
    ensures IsDependencyTree(c) <==>
         || (exists k | 0 <= k < |c| :: LowerAll(c[k]) == "node_modules")
         || (exists k | 0 <= k < |c| :: LowerAll(c[k]) == "site-packages")
         || (exists k | 0 <= k < |c| :: LowerAll(c[k]) == ".gradle")
         || (exists k | 0 <= k < |c| :: LowerAll(c[k]) == ".m2")
         || (exists k | 1 <= k < |c| :: LowerAll(c[k]) == "intermediates" && LowerAll(c[k - 1]) == "build")
         || (exists k | 2 <= k < |c| :: LowerAll(c[k]) == "intermediates" && LowerAll(c[k - 2]) == "build")
  {
    hide LowerAll;
    LowerWords();
    if IsDependencyTree(c) {
      var i :| 0 <= i < |c| && (IsTreeName(c[i]) || IsIntermediates(c, i));
    }
    forall k | 0 <= k < |c| && IsTreeName(c[k]) ensures IsDependencyTree(c) {
    }
    forall k | 1 <= k < |c| && LowerAll(c[k]) == "intermediates" && LowerAll(c[k - 1]) == "build" ensures IsDependencyTree(c) {
      assert IsIntermediates(c, k);
    }
    forall k | 2 <= k < |c| && LowerAll(c[k]) == "intermediates" && LowerAll(c[k - 2]) == "build" ensures IsDependencyTree(c) {
      assert IsIntermediates(c, k);
    }
  }

  lemma TreePatterns()
    ensures Patterns(DependencyTree)[0] == [Any] + ([Name("node_modules")] + [Any])
    ensures Patterns(DependencyTree)[1] == [Any] + ([Name("site-packages")] + [Any])
    ensures Patterns(DependencyTree)[2] == [Any] + ([Name(".gradle")] + [Any])
    ensures Patterns(DependencyTree)[3] == [Any] + ([Name(".m2")] + [Any])
    ensures Patterns(DependencyTree)[4] == [Any] + ([Name("build")] + ([Name("intermediates")] + [Any]))
    ensures Patterns(DependencyTree)[5] == [Any] + ([Name("build")] + ([One] + ([Name("intermediates")] + [Any])))
  {
  }

  lemma TreeMatched(c: seq<string>)
    ensures Matched(DependencyTree, c)
       <==> Match(Patterns(DependencyTree)[0], c) || Match(Patterns(DependencyTree)[1], c)
            || Match(Patterns(DependencyTree)[2], c) || Match(Patterns(DependencyTree)[3], c)
            || Match(Patterns(DependencyTree)[4], c) || Match(Patterns(DependencyTree)[5], c)
  {
    hide Match;
  }

  lemma DependencyTreeIs(c: seq<string>)
    ensures IsDependencyTree(c) <==> Matched(DependencyTree, c)
  {
    hide *;
    TreeNames(c);
    NameAnywhere("node_modules", c);
    NameAnywhere("site-packages", c);
    NameAnywhere(".gradle", c);
    NameAnywhere(".m2", c);
    PairAnywhere("build", "intermediates", c);
    PairApart("build", "intermediates", c);
    TreePatterns();
    TreeMatched(c);
  }

  lemma RecentThen(c: seq<string>)
    ensures Match([Any] + ([Name("recent")] + ([One] + [Any])), c) <==> exists k | 0 <= k < |c| - 1 :: LowerAll(c[k]) == "recent"
  {
    hide Match, LowerAll;
    var p := [Name("recent")] + ([One] + [Any]);
    AnyThen(p, c);
    forall k | 0 <= k <= |c| ensures Match(p, c[k..]) <==> k + 1 < |c| && LowerAll(c[k]) == "recent" {
      NameThen("recent", [One] + [Any], c[k..]);
      if k < |c| {
        OneThen([Any], c[k..][1..]);
        if k + 1 < |c| {
          MatchAny(c[k..][1..][1..]);
        }
      }
    }
  }

  lemma RecentItemsIs(c: seq<string>)
    ensures IsRecentItems(c) <==> Matched(RecentItems, c)
  {
    hide Match, LowerAll, NamesAt, SeqAt;
    LowerNames();
    LowerWords();
    var roaming := ["appdata", "roaming"];
    var rest := [Any] + ([Name("recent")] + ([One] + [Any]));
    assert Patterns(RecentItems)[0] == [Name("users"), One] + (Named(roaming) + rest);
    Users(Named(roaming) + rest, c);
    SeqAtIs(c, 2, ROAMING, roaming);
    if |c| >= 2 {
      NamesFirst(roaming, rest, c[2..]);
      NamesBelow(c, 2, roaming);
      if |c| >= 4 {
        assert c[2..][2..] == c[4..];
        RecentThen(c[4..]);
        RecentBelow(c);
      } else {
        assert !NamesAt(c, 2, roaming) by {
          RoamingIsTwo(c);
        }
      }
    }
  }

  lemma RoamingIsTwo(c: seq<string>)
    ensures NamesAt(c, 2, ["appdata", "roaming"]) ==> |c| >= 4
  {
  }

  lemma RecentBelow(c: seq<string>)
    requires |c| >= 4
    ensures (exists k | 0 <= k < |c[4..]| - 1 :: LowerAll(c[4..][k]) == "recent")
       <==> |c| >= 5 && exists i | 4 <= i < |c| - 1 :: IEq(c[i], "Recent")
  {
    hide LowerAll;
    LowerWords();
    forall i | 4 <= i < |c| - 1 && IEq(c[i], "Recent")
      ensures exists k | 0 <= k < |c[4..]| - 1 :: LowerAll(c[4..][k]) == "recent"
    {
      assert c[4..][i - 4] == c[i];
    }
    forall k | 0 <= k < |c[4..]| - 1 && LowerAll(c[4..][k]) == "recent"
      ensures exists i | 4 <= i < |c| - 1 :: IEq(c[i], "Recent")
    {
      assert c[4..][k] == c[k + 4] && IEq(c[k + 4], "Recent");
    }
  }

  lemma ScratchHere(c: seq<string>, k: nat)
    requires k <= |c|
    ensures Match([Name("tests")] + ([Scratch] + [Any]), c[k..])
       <==> k + 1 < |c| && LowerAll(c[k]) == "tests" && IsScratchName(c[k + 1])
  {
    hide Match, LowerAll, IsScratchName;
    var q := [Scratch] + [Any];
    NameThen("tests", q, c[k..]);
    if k < |c| {
      OneName(q, c[k..][1..]);
      assert q[1..] == [Any] && q[0] == Scratch;
      if k + 1 < |c| {
        MatchAny(c[k..][1..][1..]);
      }
    }
  }

  lemma ScratchThen(c: seq<string>)
    ensures Match([Any] + ([Name("tests")] + ([Scratch] + [Any])), c) <==> ScratchBelowTests(c)
  {
    hide Match, LowerAll, IsScratchName;
    var p := [Name("tests")] + ([Scratch] + [Any]);
    AnyThen(p, c);
    if k :| 1 <= k < |c| && LowerAll(c[k - 1]) == "tests" && IsScratchName(c[k]) {
      ScratchHere(c, k - 1);
      assert Match(p, c[k - 1..]);
    }
    if k :| 0 <= k <= |c| && Match(p, c[k..]) {
      ScratchHere(c, k);
      assert LowerAll(c[k + 1 - 1]) == "tests" && IsScratchName(c[k + 1]);
    }
  }

  lemma FixtureIs(c: seq<string>)
    ensures IsFixture(c) <==> Matched(SelfTestFixtures, c)
  {
    hide Match, LowerAll, IsScratchName, FixtureAt;
    var rest := [Any] + ([Name("tests")] + ([Scratch] + [Any]));
    var p := [Name("build")] + rest;
    assert Patterns(SelfTestFixtures)[0] == [Any] + p;
    AnyThen(p, c);
    forall b | 0 <= b <= |c| ensures Match(p, c[b..]) <==> exists i | b <= i < |c| :: FixtureAt(c, b, i) {
      NameThen("build", rest, c[b..]);
      if b < |c| {
        ScratchThen(c[b..][1..]);
        FixtureBelow(c, b);
      }
    }
    if IsFixture(c) {
      var b, i :| 0 <= b <= i < |c| && FixtureAt(c, b, i);
      assert Match(p, c[b..]);
    }
    forall b | 0 <= b <= |c| && Match(p, c[b..]) ensures IsFixture(c) {
    }
  }

  ghost predicate ScratchBelowTests(c: seq<string>) {
    exists k | 1 <= k < |c| :: LowerAll(c[k - 1]) == "tests" && IsScratchName(c[k])
  }

  lemma FixtureBelow(c: seq<string>, b: nat)
    requires b < |c|
    ensures (exists i | b <= i < |c| :: FixtureAt(c, b, i)) <==> LowerAll(c[b]) == "build" && ScratchBelowTests(c[b..][1..])
  {
    hide LowerAll, IsScratchName;
    LowerWords();
    var below := c[b..][1..];
    if i :| b <= i < |c| && FixtureAt(c, b, i) {
      ScratchIsLong(c[i]);
      LowerLength(c[b]);
      LowerLength(c[i - 1]);
      assert below[i - b - 2] == c[i - 1] && below[i - b - 1] == c[i];
    }
    if LowerAll(c[b]) == "build" && ScratchBelowTests(below) {
      var k :| 1 <= k < |below| && LowerAll(below[k - 1]) == "tests" && IsScratchName(below[k]);
      assert below[k - 1] == c[b + k] && below[k] == c[b + k + 1];
      assert FixtureAt(c, b, b + k + 1);
    }
  }

  lemma LowerLength(s: string)
    ensures |LowerAll(s)| == |s|
  {
  }

  lemma ScratchIsLong(s: string)
    requires IsScratchName(s)
    ensures |s| >= 23
  {
  }

  // ---- the first pattern that matches ----

  /** The kind of a path is the first whose patterns match its components. */
  lemma KindIsFirstMatch(c: seq<string>)
    ensures exists n | 0 <= n < |ORDER| ::
              ORDER[n] == KindOf(c) && Matched(ORDER[n], c) && forall m | 0 <= m < n :: !Matched(ORDER[m], c)
  {
    hide IsFixture, IsUserExposed, IsDependencyTree, IsRecentItems, SeqAt, IsOsShortcut, Matched;
    FixtureIs(c);
    UserExposedIs(c);
    DependencyTreeIs(c);
    RecentItemsIs(c);
    StoreIs(c);
    MenuIs(c);
    OrdinaryIs(c);
    var n := Rank(KindOf(c));
    assert ORDER[n] == KindOf(c);
    assert forall m | 0 <= m < n :: !Matched(ORDER[m], c);
  }

  lemma OrdinaryIs(c: seq<string>)
    ensures Matched(Ordinary, c)
  {
    MatchAny(c);
    assert Patterns(Ordinary)[0] == [Any];
  }

  // ---- from paths to kinds ----

  /** The first 96 components of a path decide. */
  lemma PathKind(path: cstring)
    ensures var all := Components(path);
            Classification(path) == KindOf(if |all| <= 96 then all else all[..96])
  {
    hide KindOf, Components;
  }

  /** Which devices are tuned, and what of a path is classified. */
  lemma TunedDevices(bus: ScanModel.Bus)
    ensures PolicyApplies(bus) <==> bus in {ScanModel.Sata, ScanModel.Nvme, ScanModel.Scsi, ScanModel.Sd,
                                            ScanModel.OtherBus, ScanModel.Network}
  {
  }

  lemma RelativeIs(volume: cstring, rest: cstring)
    ensures volume != "" ==> Relative(volume, volume + rest) == rest
    ensures !(volume <= rest) || volume == "" ==> Relative(volume, rest) == rest
  {
    assert (volume + rest)[|volume|..] == rest;
  }

  /** What the detectors are told of a file: nothing on a USB stick, elsewhere the kind of its path in the volume. */
  lemma TunedKindIs(ctx: Detection.Context, rest: cstring)
    requires ctx.volume != ""
    ensures ctx.bus in {ScanModel.Usb, ScanModel.UnknownBus} ==> Detection.TunedKind(ctx, ctx.volume + rest) == None
    ensures ctx.bus !in {ScanModel.Usb, ScanModel.UnknownBus} ==>
              var all := Components(rest);
              Detection.TunedKind(ctx, ctx.volume + rest) == Some(KindOf(if |all| <= 96 then all else all[..96]))
  {
    hide KindOf, Components, Relative;
    TunedDevices(ctx.bus);
    RelativeIs(ctx.volume, rest);
  }
}
