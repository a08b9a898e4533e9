/** How far down and how long a path the walk goes (src/scanner/scanner.c), and the paths it hands out. */
module WalkLimits {
  import opened CText
  import opened Detection
  import opened Walk
  import opened WalkSet
  import G = LocationGlobs
  import L = Location

  /** The names on the way to a position, each after a separator. */
  ghost function Below(w: World, dir: cstring, depth: nat, chain: seq<nat>): string
    requires Eligible(w, dir, depth, chain)
    decreases |chain|
  {
    var e := w.open(dir).value.entries[chain[0]];
    assert EligibleFrom(w, dir, depth, e, chain);
    "/" + e.name + if |chain| == 1 then "" else Below(w, Join(dir, e.name), depth + 1, chain[1..])
  }

  /** No name ends in the separator. */
  ghost predicate Named(w: World) {
    forall dir: cstring :: w.open(dir).Success? ==>
      forall e | e in w.open(dir).value.entries :: e.name != "" && e.name[|e.name| - 1] != '/'
  }

  /** Where the first step of a position leads. */
  lemma FirstStep(w: World, dir: cstring, depth: nat, chain: seq<nat>) returns (e: Entry)
    requires Eligible(w, dir, depth, chain) && Named(w)
    ensures e.name != "" && e.name[|e.name| - 1] != '/'
    ensures |chain| == 1 ==>
              VisitAt(w, dir, depth, chain).path == Join(dir, e.name) && Below(w, dir, depth, chain) == "/" + e.name
    ensures |chain| > 1 ==>
              var child := Join(dir, e.name);
              && Eligible(w, child, depth + 1, chain[1..])
              && VisitAt(w, dir, depth, chain) == VisitAt(w, child, depth + 1, chain[1..])
              && Below(w, dir, depth, chain) == "/" + e.name + Below(w, child, depth + 1, chain[1..])
  {
    hide Join, Excluded, Fits;
    e := w.open(dir).value.entries[chain[0]];
    assert e in w.open(dir).value.entries && EligibleFrom(w, dir, depth, e, chain);
  }

  lemma {:induction false} PathBelow(w: World, dir: cstring, depth: nat, chain: seq<nat>)
    requires Eligible(w, dir, depth, chain) && Named(w) && (dir == "" || dir[|dir| - 1] != '/')
    ensures VisitAt(w, dir, depth, chain).path == dir + Below(w, dir, depth, chain)
    decreases |chain|
  {
    hide Eligible, VisitAt, Below, Named;
    var e := FirstStep(w, dir, depth, chain);
    assert dir + "/" + e.name == dir + ("/" + e.name);
    NotEmpty(w, dir, depth, chain);
    if |chain| > 1 {
      PathBelow(w, Join(dir, e.name), depth + 1, chain[1..]);
      var rest := Below(w, Join(dir, e.name), depth + 1, chain[1..]);
      assert dir + "/" + e.name + rest == dir + ("/" + e.name + rest);
    }
  }

  /** The path of a visit is the root and the names on the way, each after one separator. */
  lemma PathOfVisit(w: World, chain: seq<nat>)
    requires Eligible(w, w.root, 0, chain) && Named(w)
    ensures var way := Below(w, w.root, 0, chain);
            && way != ""
            && VisitAt(w, w.root, 0, chain).path
               == w.root + if w.root != "" && w.root[|w.root| - 1] == '/' then way[1..] else way
  {
    hide Eligible, VisitAt, Below, Named;
    var e := FirstStep(w, w.root, 0, chain);
    NotEmpty(w, w.root, 0, chain);
    if w.root == "" || w.root[|w.root| - 1] != '/' {
      PathBelow(w, w.root, 0, chain);
    } else if |chain| > 1 {
      PathBelow(w, Join(w.root, e.name), 1, chain[1..]);
      var rest := Below(w, Join(w.root, e.name), 1, chain[1..]);
      assert ("/" + e.name + rest)[1..] == e.name + rest;
      assert w.root + e.name + rest == w.root + (e.name + rest);
    } else {
      assert ("/" + e.name)[1..] == e.name;
    }
  }

  /** No visited file lies more than 64 directories below the root or has a path of 2048 characters. */
  lemma {:induction false} Limits(w: World, dir: cstring, depth: nat, chain: seq<nat>)
    requires Eligible(w, dir, depth, chain)
    ensures depth + |chain| <= 65 && |VisitAt(w, dir, depth, chain).path| <= 2047
    decreases |chain|
  {
    var e := w.open(dir).value.entries[chain[0]];
    assert EligibleFrom(w, dir, depth, e, chain);
    if |chain| > 1 {
      Limits(w, Join(dir, e.name), depth + 1, chain[1..]);
    }
  }

  /** Every path of at most 2047 characters fits: a file of the root is visited if and only if its path does. */
  lemma LengthLimit(w: World, e: Entry)
    requires w.open(w.root) == Success(Listing([e], NotFound)) && !e.isDirectory && !e.isReparsePoint
    requires w.root != "" && w.root[|w.root| - 1] != '/'
    ensures Eligible(w, w.root, 0, [0]) <==> |w.root| + 1 + |e.name| <= 2047
  {
    assert Eligible(w, w.root, 0, [0]) <==> EligibleFrom(w, w.root, 0, e, [0]);
  }

  const DEEP: World := World("/r", false, (dir: cstring) => Success(Listing([
    Entry("d", true, false, false, 0), Entry("f", false, false, false, 0)], NotFound)), (n: nat) => false, (n: nat) => true)

  function Down(k: nat): (chain: seq<nat>)
    ensures |chain| == k + 1
  {
    if k == 0 then [1] else [0] + Down(k - 1)
  }

  lemma {:induction false} DownIsEligible(dir: cstring, depth: nat)
    requires depth <= 64 && |dir| <= 2 + 2 * depth
    ensures Eligible(DEEP, dir, depth, Down(64 - depth))
    decreases 64 - depth
  {
    var chain := Down(64 - depth);
    if depth < 64 {
      DownIsEligible(Join(dir, "d"), depth + 1);
      assert chain[1..] == Down(64 - (depth + 1)) && chain[0] == 0;
      assert EligibleFrom(DEEP, dir, depth, Entry("d", true, false, false, 0), chain);
    } else {
      assert EligibleFrom(DEEP, dir, depth, Entry("f", false, false, false, 0), chain);
    }
  }

  /** A file 64 directories below the root is visited. */
  lemma DeepestIsVisited()
    ensures Eligible(DEEP, DEEP.root, 0, Down(64)) && |Down(64)| == 65
  {
    DownIsEligible("/r", 0);
  }

  /** Only on a tuned device, and only this project's own scratch trees are left out. */
  lemma ExcludedIff(w: World, path: cstring)
    ensures var all := L.Components(L.Relative(w.root, path));
            Excluded(w, path) <==>
              && w.tuned
              && G.Match([G.Any, G.Name("build"), G.Any, G.Name("tests"), G.Scratch, G.Any],
                         if |all| <= 96 then all else all[..96])
  {
    hide L.Components, L.IsFixture, G.Match, L.Relative;
    var c := L.Take(L.Components(L.Relative(w.root, path)), 96);
    G.FixtureIs(c);
    assert G.Patterns(L.SelfTestFixtures)[0] == [G.Any, G.Name("build"), G.Any, G.Name("tests"), G.Scratch, G.Any];
    KindIsFixture(c);
  }

  lemma KindIsFixture(c: seq<string>)
    ensures L.KindOf(c) == L.SelfTestFixtures <==> L.IsFixture(c)
  {
  }
}
