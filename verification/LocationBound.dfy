/**
  What the bound of 96 components costs (src/core/location.c): the comment there promises that a path
  past the bound errs toward the stricter rules.  Here is exactly when it does not.
 */
module LocationBound {
  import opened CText
  import opened ScanModel
  import opened Location
  import Detection
  import F = Filename
  import S = LnkInspect
  import Walk
  import WalkSet

  /** The kind a path gets, from its first components alone. */
  function Bounded(c: seq<string>): Kind {
    KindOf(Take(c, MAX_COMPONENTS))
  }

  // ---- rules decided by the first components ----

  lemma SeqAtIsEarly(c: seq<string>, more: seq<string>, at: nat, names: seq<string>)
    requires at + |names| <= |c|
    ensures SeqAt(c + more, at, names) <==> SeqAt(c, at, names)
  {
    hide IEq;
  }

  lemma UserExposedIsEarly(c: seq<string>, more: seq<string>)
    requires |c| >= 9
    ensures IsUserExposed(c + more) <==> IsUserExposed(c)
  {
    hide IEq, SeqAt, IsDesktop, StartsWithIgnoringCase;
    SeqAtIsEarly(c, more, 0, STARTUP_ALL);
    SeqAtIsEarly(c, more, 2, STARTUP_USER);
    SeqAtIsEarly(c, more, 2, TEMP_USER);
  }

  lemma OsRulesAreEarly(c: seq<string>, more: seq<string>)
    requires |c| >= 7
    ensures SeqAt(c + more, 0, WINSXS) <==> SeqAt(c, 0, WINSXS)
    ensures IsOsShortcut(c + more) <==> IsOsShortcut(c)
  {
    hide IEq, SeqAt;
    SeqAtIsEarly(c, more, 0, WINSXS);
    SeqAtIsEarly(c, more, 0, MENU_ALL);
    SeqAtIsEarly(c, more, 2, MENU_USER);
  }

  /** The kind of a whole path from the kind of its first components and the rules that look anywhere. */
  lemma WholeKind(c: seq<string>)
    ensures KindOf(c) ==
            if IsFixture(c) then SelfTestFixtures
            else if Bounded(c) == UserExposed then UserExposed
            else if IsDependencyTree(c) then DependencyTree
            else if IsRecentItems(c) then RecentItems
            else Bounded(c)
    ensures Bounded(c) == SelfTestFixtures ==> IsFixture(c)
    ensures Bounded(c) == DependencyTree ==> IsDependencyTree(c)
    ensures Bounded(c) == RecentItems ==> IsRecentItems(c)
  {
    hide IsFixture, IsUserExposed, IsDependencyTree, IsRecentItems, IsOsShortcut, SeqAt;
    if |c| > MAX_COMPONENTS {
      var first, rest := c[..MAX_COMPONENTS], c[MAX_COMPONENTS..];
      assert c == first + rest;
      if IsFixture(first) { FixtureGrows(first, rest); }
      UserExposedIsEarly(first, rest);
      if IsDependencyTree(first) { DependencyTreeGrows(first, rest); }
      if IsRecentItems(first) { RecentItemsGrows(first, rest); }
      OsRulesAreEarly(first, rest);
    }
  }

  // ---- when the bound loosens ----

  /** How much a shortcut policy leaves out. */
  function Leniency(p: S.Policy): nat {
    match p
    case Untuned => 0
    case AttackShape => 1
    case SuppressAll => 2
  }

  /** The kind of the first components, by the rules that decide it. */
  lemma BoundedIs(c: seq<string>)
    ensures var first := Take(c, MAX_COMPONENTS);
            var early := !IsFixture(first) && !IsUserExposed(first);
            && (Bounded(c) == DependencyTree <==> early && IsDependencyTree(first))
            && (Bounded(c) == RecentItems <==> early && !IsDependencyTree(first) && IsRecentItems(first))
            && (Bounded(c) == OsShortcuts || Bounded(c) == OsComponentStore
                <==> && early && !IsDependencyTree(first) && !IsRecentItems(first)
                     && (SeqAt(first, 0, WINSXS) || IsOsShortcut(first)))
  {
    hide IsFixture, IsUserExposed, IsDependencyTree, IsRecentItems, IsOsShortcut, SeqAt;
  }

  /**
    The shortcut rules, for every path: the bound loosens the policy exactly when there are more than
    96 components, the path is the Start Menu's or the component store's, and it is a fixture, a
    dependency tree or Recent Items while its first 96 components are none of these and not user-facing.
   */
  lemma LoosensShortcutsIff(c: seq<string>)
    ensures Leniency(S.PolicyFor(Some(Bounded(c)))) > Leniency(S.PolicyFor(Some(KindOf(c))))
       <==> && |c| > MAX_COMPONENTS
            && (SeqAt(c, 0, WINSXS) || IsOsShortcut(c))
            && (IsFixture(c) || IsDependencyTree(c) || IsRecentItems(c))
            && var first := c[..MAX_COMPONENTS];
               !IsFixture(first) && !IsUserExposed(first) && !IsDependencyTree(first) && !IsRecentItems(first)
  {
    hide KindOf, IsFixture, IsUserExposed, IsDependencyTree, IsRecentItems, IsOsShortcut, SeqAt;
    WholeKind(c);
    BoundedIs(c);
    if |c| > MAX_COMPONENTS {
      var first, rest := c[..MAX_COMPONENTS], c[MAX_COMPONENTS..];
      assert c == first + rest;
      OsRulesAreEarly(first, rest);
    }
  }

  /** How much weaker than High a verdict on a disguised name is. */
  function Weakness(v: F.Verdict): nat {
    match v
    case Default => 0
    case Lowered(severity) => if severity == Info then 2 else 1
    case Suppressed => 3
  }

  lemma ShortcutIsNotNative(executable: cstring)
    requires IEq(executable, "lnk")
    ensures !F.InSet(executable, F.NATIVE)
  {
    var l := LowerAll(executable);
    assert LowerAll("lnk")[0] == 'l';
    forall i | 0 <= i < |F.NATIVE| ensures !IEq(executable, F.NATIVE[i]) {
      assert LowerAll(F.NATIVE[i])[0] == Lower(F.NATIVE[i][0]);
      assert Lower(F.NATIVE[i][0]) != 'l';
    }
  }

  /**
    The filename rules, for every path and every executable extension: the bound weakens the verdict
    exactly when there are more than 96 components, the first 96 are neither a fixture nor
    user-facing, and either they are Recent Items alone, the file is a shortcut and the whole path is
    a fixture or a dependency tree, or they are a dependency tree, the file is no native executable
    and the whole path is a fixture.
   */
  lemma WeakensFilenamesIff(c: seq<string>, executable: cstring)
    ensures Weakness(F.Weigh(Bounded(c), executable)) > Weakness(F.Weigh(KindOf(c), executable))
       <==> && |c| > MAX_COMPONENTS
            && var first := c[..MAX_COMPONENTS];
               && !IsFixture(first) && !IsUserExposed(first)
               && if IsDependencyTree(first) then IsFixture(c) && !F.InSet(executable, F.NATIVE)
                  else IsRecentItems(first) && IEq(executable, "lnk") && (IsFixture(c) || IsDependencyTree(c))
  {
    hide KindOf, IsFixture, IsUserExposed, IsDependencyTree, IsRecentItems, IsOsShortcut, SeqAt, IEq, F.InSet;
    WholeKind(c);
    BoundedIs(c);
    if IEq(executable, "lnk") {
      ShortcutIsNotNative(executable);
    }
  }

  // ---- a path on which it does ----

  /** Start Menu, then `n` directories called "a". */
  function DeepMenu(n: nat): seq<string> {
    MENU_ALL + seq(n, _ => "a")
  }

  lemma DeepMenuIsMenu(n: nat)
    requires n > 0
    ensures KindOf(DeepMenu(n)) == OsShortcuts
  {
    hide IEq;
    var c := DeepMenu(n);
    DeepNames();
    assert forall i | 4 <= i < |c| :: c[i] == "a";
    assert SeqAt(c, 0, MENU_ALL);
    assert !SeqAt(c, 0, STARTUP_ALL) by {
      assert c[0 + 4] == "a" && STARTUP_ALL[4] == "Programs";
    }
    assert !SeqAt(c, 0, WINSXS) by {
      assert c[0 + 0] == "ProgramData" && WINSXS[0] == "Windows";
    }
    forall i | 0 <= i < |c|
      ensures !IsTreeName(c[i]) && !IsIntermediates(c, i) && !IEq(c[i], "build")
    {
    }
  }

  /** None of the names in DeepMenu is one the other rules look for. */
  lemma DeepNames()
    ensures forall i | 0 <= i < 4 :: IEq(MENU_ALL[i], MENU_ALL[i])
    ensures !IEq("a", "Programs") && !IEq("ProgramData", "Windows") && !IEq("ProgramData", "Users")
    ensures forall s | s in MENU_ALL || s == "a" ::
              !IsTreeName(s) && !IEq(s, "intermediates") && !IEq(s, "build")
  {
    forall s | s in MENU_ALL || s == "a"
      ensures !IsTreeName(s) && !IEq(s, "intermediates") && !IEq(s, "build")
    {
      NotTheseNames(s);
    }
    NotSame("a", "Programs");
    NotSame("ProgramData", "Windows");
    NotSame("ProgramData", "Users");
  }

  lemma NotSame(a: string, b: string)
    requires |a| != |b|
    ensures !IEq(a, b)
  {
    assert |LowerAll(a)| == |a| && |LowerAll(b)| == |b|;
  }

  lemma NotTheseNames(s: string)
    requires s in MENU_ALL || s == "a"
    ensures !IsTreeName(s) && !IEq(s, "intermediates") && !IEq(s, "build")
  {
    assert s == "ProgramData" || s == "Microsoft" || s == "Windows" || s == "Start Menu" || s == "a";
    NotSame(s, "node_modules");
    NotSame(s, "site-packages");
    assert s == "Windows" ==> LowerAll(s)[0] == 'w' && LowerAll(".gradle")[0] == '.';
    if s != "Windows" {
      NotSame(s, ".gradle");
    }
    NotSame(s, ".m2");
    NotSame(s, "intermediates");
    NotSame(s, "build");
  }

  /** A dependency directory past the 96th component, under what is the Start Menu. */
  const LOST: seq<string> := DeepMenu(92) + ["node_modules", "x.lnk"]

  lemma DeepIsDependency()
    ensures KindOf(LOST) == DependencyTree
  {
    hide IEq;
    var c := LOST;
    DeepNames();
    SameName();
    assert c[96] == "node_modules" && IsTreeName(c[96]);
    assert !SeqAt(c, 0, STARTUP_ALL) by {
      assert c[0 + 4] == "a" && STARTUP_ALL[4] == "Programs";
    }
    assert c[0] == "ProgramData";
    forall i | 0 <= i < |c| ensures !IEq(c[i], "build") {
    }
  }

  lemma SameName()
    ensures IEq("node_modules", "node_modules") && !IEq("node_modules", "build") && !IEq("x.lnk", "build")
  {
    NotSame("node_modules", "build");
    assert LowerAll("x.lnk")[0] == 'x' && LowerAll("build")[0] == 'b';
  }

  lemma LostKinds()
    ensures KindOf(LOST) == DependencyTree && Bounded(LOST) == OsShortcuts
  {
    assert LOST[..MAX_COMPONENTS] == DeepMenu(92);
    DeepMenuIsMenu(92);
    DeepIsDependency();
  }

  predicate IsPlain(name: string) {
    && name != "" && |name| <= 12
    && forall j | 0 <= j < |name| :: !IsSep(name[j]) && name[j] != NUL
  }

  lemma PlainMenu()
    ensures IsPlain("ProgramData") && IsPlain("Microsoft") && IsPlain("Windows") && IsPlain("Start Menu")
    ensures IsPlain("a") && IsPlain("node_modules") && IsPlain("x.lnk")
  {
  }

  lemma LostNames()
    ensures |LOST| == 98 && forall i | 0 <= i < |LOST| :: IsPlain(LOST[i])
  {
    hide IsPlain;
    PlainMenu();
    forall i | 0 <= i < |LOST| ensures IsPlain(LOST[i]) {
      if i < 4 {
        assert LOST[i] == MENU_ALL[i];
      }
    }
  }

  lemma {:induction false} TextIsPlain(c: seq<string>, sep: char)
    requires sep != NUL && forall i | 0 <= i < |c| :: IsPlain(c[i])
    ensures NUL !in PathText(c, sep) && (sep != '/' ==> '/' !in PathText(c, sep))
  {
    if c != [] {
      assert IsPlain(c[0]);
      if |c| > 1 {
        TextIsPlain(c[1..], sep);
      }
    }
  }

  /** The length of the names with a separator after each. */
  function Weight(c: seq<string>): nat {
    if c == [] then 0 else |c[0]| + 1 + Weight(c[1..])
  }

  lemma {:induction false} TextLength(c: seq<string>, sep: char)
    ensures c != [] ==> |PathText(c, sep)| + 1 == Weight(c)
  {
    if |c| > 1 {
      TextLength(c[1..], sep);
    } else if |c| == 1 {
      assert c[1..] == [];
    }
  }

  lemma {:induction false} WeightConcat(a: seq<string>, b: seq<string>)
    ensures Weight(a + b) == Weight(a) + Weight(b)
  {
    if a == [] {
      assert a + b == b;
    } else {
      assert (a + b)[1..] == a[1..] + b;
      WeightConcat(a[1..], b);
    }
  }

  lemma {:induction false} WeightOfShort(c: seq<string>)
    requires forall i | 0 <= i < |c| :: |c[i]| == 1
    ensures Weight(c) == 2 * |c|
  {
    if c != [] {
      WeightOfShort(c[1..]);
    }
  }

  lemma ShortWeights()
    ensures Weight(MENU_ALL) == 41 && Weight(["node_modules", "x.lnk"]) == 19
  {
    assert MENU_ALL[1..] == ["Microsoft", "Windows", "Start Menu"];
    assert MENU_ALL[1..][1..] == ["Windows", "Start Menu"] && MENU_ALL[1..][1..][1..] == ["Start Menu"];
    assert ["node_modules", "x.lnk"][1..] == ["x.lnk"];
  }

  lemma LostLength(sep: char)
    ensures |PathText(LOST, sep)| == 243
  {
    hide Weight, PathText;
    var deep := seq(92, _ => "a");
    ShortWeights();
    WeightOfShort(deep);
    WeightConcat(MENU_ALL, deep);
    WeightConcat(DeepMenu(92), ["node_modules", "x.lnk"]);
    TextLength(LOST, sep);
  }

  /** The promise is broken on a path: what the classification misses is a dependency tree. */
  lemma BoundCanLoosen(sep: char) returns (path: cstring)
    requires IsSep(sep)
    ensures path == PathText(LOST, sep) && |path| == 243 && (sep != '/' ==> '/' !in path)
    ensures Classification(path) == OsShortcuts && KindOf(Components(path)) == DependencyTree
    ensures S.PolicyFor(Some(Classification(path))) == S.AttackShape
    ensures S.PolicyFor(Some(KindOf(Components(path)))) == S.Untuned
  {
    hide KindOf, Components, PathText, LOST;
    LostNames();
    assert AreNames(LOST);
    LostKinds();
    LostLength(sep);
    TextIsPlain(LOST, sep);
    ComponentsOfText(LOST, sep);
    path := PathText(LOST, sep);
  }

  /** A walk meets such a path at one name, with backslashes in it, that POSIX allows. */
  lemma WalkCanLoosen() returns (w: Walk.World, chain: seq<nat>)
    ensures w.tuned && WalkSet.Eligible(w, w.root, 0, chain) && |chain| == 1
    ensures var name := WalkSet.VisitAt(w, w.root, 0, chain).entry.name;
            0 < |name| <= 255 && '/' !in name
    ensures var path := Relative(w.root, WalkSet.VisitAt(w, w.root, 0, chain).path);
            Classification(path) == OsShortcuts && KindOf(Components(path)) == DependencyTree
  {
    hide KindOf, Components, PathText, LOST;
    var name := BoundCanLoosen('\\');
    var listing := Walk.Listing([Detection.Entry(name, false, false, false, 0)], NotFound);
    w := Walk.World("/", true, (dir: cstring) => Success(listing), n => false, n => true);
    chain := [0];
    assert Walk.Join("/", name) == "/" + name;
    assert WalkSet.EligibleFrom(w, "/", 0, listing.entries[0], chain);
    assert WalkSet.Eligible(w, w.root, 0, chain);
    assert Relative("/", "/" + name) == name;
  }
}
