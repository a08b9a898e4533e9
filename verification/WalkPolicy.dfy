/**
  The location policy inside the walk (src/scanner/scanner.c, src/core/location.c): pruning fixture
  directories is filtering their files, and the bound on components is never reached.
 */
module WalkPolicy {
  import opened CText
  import opened Walk
  import opened WalkSet
  import L = Location

  /** Eligible but for the exclusion of directories. */
  ghost predicate Reachable(w: World, dir: cstring, depth: nat, chain: seq<nat>)
    decreases |chain|
  {
    && depth <= MAX_DEPTH && chain != [] && w.open(dir).Success?
    && chain[0] < |w.open(dir).value.entries|
    && var e := w.open(dir).value.entries[chain[0]];
    && !e.isReparsePoint && Fits(Join(dir, e.name))
    && if |chain| == 1 then !e.isDirectory
       else e.isDirectory && Reachable(w, Join(dir, e.name), depth + 1, chain[1..])
  }

  /** The directory that lists the file at a position. */
  ghost function ParentOf(w: World, dir: cstring, depth: nat, chain: seq<nat>): cstring
    requires Reachable(w, dir, depth, chain)
    decreases |chain|
  {
    if |chain| == 1 then dir
    else ParentOf(w, Join(dir, w.open(dir).value.entries[chain[0]].name), depth + 1, chain[1..])
  }

  lemma NameBelow(path: cstring, name: cstring)
    requires path == "" || path[|path| - 1] != '/'
    ensures L.Classification(path) == L.SelfTestFixtures ==> L.Classification(path + "/" + name) == L.SelfTestFixtures
  {
    hide L.Classification;
    L.DeeperIsNeverLater(path, '/', name);
    assert path + ['/'] + name == path + "/" + name;
  }

  /** A path that ends in a separator has the components of the path without it. */
  lemma SlashBelow(path: cstring, name: cstring)
    requires path != "" && path[|path| - 1] == '/'
    ensures L.Classification(path) == L.SelfTestFixtures ==> L.Classification(path + name) == L.SelfTestFixtures
  {
    hide L.KindOf, L.Components;
    var front := path[..|path| - 1];
    assert path == front + ['/'] + "" && path + name == front + ['/'] + name;
    L.ComponentsOfJoin(front, '/', "");
    L.EmptyPath();
    assert L.Components(path) == L.Components(front);
    L.DeeperIsNeverLater(front, '/', name);
  }

  lemma RootIsNoFixture()
    ensures L.Classification("") == L.Ordinary
  {
    L.EmptyPath();
  }

  lemma ExclusionIsInherited(w: World, dir: cstring, name: cstring)
    requires w.root <= dir && Excluded(w, dir)
    ensures Excluded(w, Join(dir, name)) && w.root <= Join(dir, name)
  {
    hide L.Classification;
    var below, above := L.Relative(w.root, Join(dir, name)), L.Relative(w.root, dir);
    RootIsNoFixture();
    if above[|above| - 1] == '/' {
      assert below == above + name;
      SlashBelow(above, name);
    } else {
      assert below == above + "/" + name;
      NameBelow(above, name);
    }
  }

  lemma JoinKeepsRoot(root: cstring, dir: cstring, name: cstring)
    requires root <= dir
    ensures root <= Join(dir, name)
  {
  }

  lemma {:induction false} ParentIsExcluded(w: World, dir: cstring, depth: nat, chain: seq<nat>)
    requires w.root <= dir && Reachable(w, dir, depth, chain) && Excluded(w, dir)
    ensures Excluded(w, ParentOf(w, dir, depth, chain))
    decreases |chain|
  {
    hide Excluded;
    if |chain| > 1 {
      var name := w.open(dir).value.entries[chain[0]].name;
      ExclusionIsInherited(w, dir, name);
      ParentIsExcluded(w, Join(dir, name), depth + 1, chain[1..]);
    }
  }

  /**
    Not descending into fixture directories leaves out exactly the files whose own directory is a
    fixture directory.
   */
  lemma {:induction false} PruningIsFiltering(w: World, dir: cstring, depth: nat, chain: seq<nat>)
    requires w.root <= dir
    ensures Eligible(w, dir, depth, chain)
       <==> && Reachable(w, dir, depth, chain)
            && (|chain| > 1 ==> !Excluded(w, ParentOf(w, dir, depth, chain)))
    decreases |chain|
  {
    hide Excluded;
    if depth <= MAX_DEPTH && |chain| > 1 && w.open(dir).Success? && chain[0] < |w.open(dir).value.entries| {
      var e := w.open(dir).value.entries[chain[0]];
      var child := Join(dir, e.name);
      JoinKeepsRoot(w.root, dir, e.name);
      PruningIsFiltering(w, child, depth + 1, chain[1..]);
      if Reachable(w, child, depth + 1, chain[1..]) && Excluded(w, child) {
        ParentIsExcluded(w, child, depth + 1, chain[1..]);
      }
      assert Eligible(w, dir, depth, chain) <==> EligibleFrom(w, dir, depth, e, chain);
    } else {
      assert |chain| == 1 ==> chain[1..] == [];
    }
  }

  // ---- the bound on components ----

  /** No name holds a separator, as on any file system with both kinds. */
  ghost predicate PlainNames(w: World) {
    forall dir: cstring, i |
      w.open(dir).Success? && 0 <= i < |w.open(dir).value.entries| ::
      forall k | 0 <= k < |w.open(dir).value.entries[i].name| :: !L.IsSep(w.open(dir).value.entries[i].name[k])
  }

  lemma OneComponent(name: cstring)
    requires forall k | 0 <= k < |name| :: !L.IsSep(name[k])
    ensures |L.Components(name)| <= 1
  {
    if name != "" {
      assert L.NameLength(name) == |name|;
      assert name[|name|..] == "";
    }
  }

  /** Joining adds at most one component to the relative path. */
  lemma JoinAddsOne(w: World, dir: cstring, name: cstring)
    requires w.root <= dir && forall k | 0 <= k < |name| :: !L.IsSep(name[k])
    ensures |L.Components(L.Relative(w.root, Join(dir, name)))| <= |L.Components(L.Relative(w.root, dir))| + 1
  {
    hide L.Components;
    OneComponent(name);
    L.EmptyPath();
    var below, above := L.Relative(w.root, Join(dir, name)), L.Relative(w.root, dir);
    if above != "" && above[|above| - 1] == '/' {
      var front := above[..|above| - 1];
      assert above == front + ['/'] + "" && below == front + ['/'] + name;
      L.ComponentsOfJoin(front, '/', "");
      L.ComponentsOfJoin(front, '/', name);
    } else if above == "" && dir != "" && dir[|dir| - 1] == '/' {
      assert below == name;
    } else {
      assert below == above + ['/'] + name;
      L.ComponentsOfJoin(above, '/', name);
    }
  }

  lemma {:induction false} ComponentsAreBounded(w: World, dir: cstring, depth: nat, chain: seq<nat>)
    requires PlainNames(w) && w.root <= dir && Eligible(w, dir, depth, chain)
    requires |L.Components(L.Relative(w.root, dir))| <= depth
    ensures |L.Components(L.Relative(w.root, VisitAt(w, dir, depth, chain).path))| <= MAX_DEPTH + 1
    decreases |chain|
  {
    hide L.Components;
    var e := w.open(dir).value.entries[chain[0]];
    assert EligibleFrom(w, dir, depth, e, chain);
    JoinAddsOne(w, dir, e.name);
    if |chain| > 1 {
      JoinKeepsRoot(w.root, dir, e.name);
      ComponentsAreBounded(w, Join(dir, e.name), depth + 1, chain[1..]);
    }
  }

  /** Every visited file is classified by all of its components: the depth limit keeps below the bound. */
  lemma BoundIsNeverReached(w: World, chain: seq<nat>)
    requires PlainNames(w) && w.root != "" && Eligible(w, w.root, 0, chain)
    ensures var relative := L.Relative(w.root, VisitAt(w, w.root, 0, chain).path);
            L.Classification(relative) == L.KindOf(L.Components(relative))
  {
    hide L.Components, L.KindOf;
    L.EmptyPath();
    assert L.Relative(w.root, w.root) == "";
    ComponentsAreBounded(w, w.root, 0, chain);
  }
}
