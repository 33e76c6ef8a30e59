/**
 Precedence of secret paths: whether what deeper configs contribute wins over what higher ones do.
 The path list keeps first occurrences, so a path repeated further down does not move down.
 */
module CliPrecedence {
  import opened Wrappers
  import opened CliConfig
  import opened CliView
  import opened CliPush

  /** The last occurrence of each path, in order. */
  function LastOccurrences(paths: seq<Place>): seq<Place> {
    if paths == [] then []
    else if paths[0] in paths[1..] then LastOccurrences(paths[1..])
    else [paths[0]] + LastOccurrences(paths[1..])
  }

  /** The list that is read shows what reading every contribution in its place would. */
  ghost predicate DeepestWins(server: Server, all: seq<string>) {
    Merged(server, Places(Dedup(all))) == Merged(server, Places(all))
  }

  // Stacked layers, whatever a layer is.

  /** Layer on layer, later ones over earlier ones. */
  function Stack(layer: Place -> Folder, paths: seq<Place>): Folder {
    if paths == [] then map[] else Stack(layer, paths[..|paths| - 1]) + layer(paths[|paths| - 1])
  }

  lemma {:induction false} MergedIsStack(server: Server, layer: Place -> Folder, paths: seq<Place>)
    requires forall p :: layer(p) == Layer(server, p)
    ensures Merged(server, paths) == Stack(layer, paths)
  {
    if paths != [] {
      MergedIsStack(server, layer, paths[..|paths| - 1]);
    }
  }

  lemma StackSnoc(layer: Place -> Folder, front: seq<Place>, path: Place)
    ensures Stack(layer, front + [path]) == Stack(layer, front) + layer(path)
  {
    assert (front + [path])[..|front|] == front;
  }

  lemma {:induction false} StackCons(layer: Place -> Folder, path: Place, rest: seq<Place>)
    ensures Stack(layer, [path] + rest) == layer(path) + Stack(layer, rest)
  {
    if rest == [] {
      StackSnoc(layer, [], path);
      assert [] + [path] == [path] + [] == [path];
    } else {
      var before, last := rest[..|rest| - 1], rest[|rest| - 1];
      StackCons(layer, path, before);
      StackSnoc(layer, [path] + before, last);
      assert [path] + rest == ([path] + before) + [last];
      LayersAssociate(layer(path), Stack(layer, before), layer(last));
    }
  }

  lemma {:induction false} LayerIsShown(layer: Place -> Folder, paths: seq<Place>, path: Place)
    requires path in paths
    ensures layer(path).Keys <= Stack(layer, paths).Keys
  {
    var n := |paths| - 1;
    if path != paths[n] {
      LayerIsShown(layer, paths[..n], path);
    }
  }

  lemma CoveredLayer(under: Folder, over: Folder)
    requires under.Keys <= over.Keys
    ensures under + over == over
  {
  }

  /** Only the last occurrence of a path matters. */
  lemma {:induction false} StackSeesLastOccurrences(layer: Place -> Folder, paths: seq<Place>)
    ensures Stack(layer, LastOccurrences(paths)) == Stack(layer, paths)
  {
    if paths != [] {
      var path, rest := paths[0], paths[1..];
      assert paths == [path] + rest;
      StackSeesLastOccurrences(layer, rest);
      StackCons(layer, path, rest);
      if path in rest {
        LayerIsShown(layer, rest, path);
        CoveredLayer(layer(path), Stack(layer, rest));
      } else {
        StackCons(layer, path, LastOccurrences(rest));
      }
    }
  }

  lemma MergeSeesLastOccurrences(server: Server, paths: seq<Place>)
    ensures Merged(server, LastOccurrences(paths)) == Merged(server, paths)
  {
    var layer := p => Layer(server, p);
    MergedIsStack(server, layer, paths);
    MergedIsStack(server, layer, LastOccurrences(paths));
    StackSeesLastOccurrences(layer, paths);
  }

  predicate EachOnce(paths: seq<Place>) {
    forall i, j :: 0 <= i < j < |paths| ==> paths[i] != paths[j]
  }

  lemma {:induction false} LastOccurrencesEachOnce(paths: seq<Place>)
    ensures EachOnce(LastOccurrences(paths))
    ensures forall p :: p in LastOccurrences(paths) <==> p in paths
  {
    if paths != [] {
      LastOccurrencesEachOnce(paths[1..]);
      assert forall p :: p in paths <==> p == paths[0] || p in paths[1..];
    }
  }

  /** Two arrangements of the same paths that differ put some two paths in opposite orders. */
  lemma {:induction false} OppositeOrders(a: seq<Place>, b: seq<Place>) returns (i: nat, j: nat, k: nat, l: nat)
    requires EachOnce(a) && EachOnce(b) && a != b
    requires forall p :: p in a <==> p in b
    ensures i < j < |a| && k < l < |b| && a[i] == b[l] && a[j] == b[k]
  {
    EmptyTogether(a, b);
    if a[0] == b[0] {
      assert a == [a[0]] + a[1..] && b == [b[0]] + b[1..];
      TailsAgree(a, b);
      i, j, k, l := OppositeOrders(a[1..], b[1..]);
      i, j, k, l := i + 1, j + 1, k + 1, l + 1;
    } else {
      assert a[0] in b && b[0] in a;
      j :| 0 <= j < |a| && a[j] == b[0];
      l :| 0 <= l < |b| && b[l] == a[0];
      i, k := 0, 0;
    }
  }

  lemma EmptyTogether(a: seq<Place>, b: seq<Place>)
    requires forall p :: p in a <==> p in b
    ensures a == [] <==> b == []
  {
    if a != [] {
      assert a[0] in b;
    }
    if b != [] {
      assert b[0] in a;
    }
  }

  lemma TailsAgree(a: seq<Place>, b: seq<Place>)
    requires a != [] && b != [] && a[0] == b[0] && EachOnce(a) && EachOnce(b)
    requires forall p :: p in a <==> p in b
    ensures EachOnce(a[1..]) && EachOnce(b[1..])
    ensures forall p :: p in a[1..] <==> p in b[1..]
  {
    forall p ensures p in a[1..] <==> p in b[1..] {
      assert p in a <==> p == a[0] || p in a[1..];
      assert p in b <==> p == b[0] || p in b[1..];
    }
  }

  /** Two paths that hold one key with different values. */
  function Rivals(p: Place, q: Place): Server {
    Server(map[p := map["KEY" := Secret("first", false)], q := map["KEY" := Secret("second", false)]], map[])
  }

  lemma {:induction false} LaterRivalShows(p: Place, q: Place, paths: seq<Place>, i: nat)
    requires i < |paths| && (paths[i] == p || paths[i] == q)
    requires forall j :: i < j < |paths| ==> paths[j] != p && paths[j] != q
    ensures "KEY" in Merged(Rivals(p, q), paths)
    ensures Merged(Rivals(p, q), paths)["KEY"] == FolderAt(Rivals(p, q), paths[i])["KEY"]
  {
    var server, n := Rivals(p, q), |paths| - 1;
    assert Layer(server, paths[n]) == FolderAt(server, paths[n]);
    if i < n {
      LaterRivalShows(p, q, paths[..n], i);
    }
  }

  /** In a list without repeats the later of two rivals shows. */
  lemma LaterOfTwoShows(p: Place, q: Place, paths: seq<Place>, i: nat, j: nat)
    requires EachOnce(paths) && i < j < |paths| && p != q
    requires (paths[i] == p && paths[j] == q) || (paths[i] == q && paths[j] == p)
    ensures "KEY" in Merged(Rivals(p, q), paths)
    ensures Merged(Rivals(p, q), paths)["KEY"] == Secret(if paths[j] == p then "first" else "second", false)
  {
    forall k | j < k < |paths| ensures paths[k] != p && paths[k] != q {
      assert paths[i] != paths[k] && paths[j] != paths[k];
    }
    LaterRivalShows(p, q, paths, j);
  }

  lemma SamePlaces(all: seq<string>)
    ensures forall p :: p in Places(Dedup(all)) <==> p in Places(all)
  {
    DedupKeepsEachOnce(all);
    var first := Dedup(all);
    forall p | p in Places(first) ensures p in Places(all) {
      var i :| 0 <= i < |first| && PlaceOf(first[i]) == p;
      assert first[i] in all;
      var j :| 0 <= j < |all| && all[j] == first[i];
      assert Places(all)[j] == p;
    }
    forall p | p in Places(all) ensures p in Places(first) {
      var i :| 0 <= i < |all| && PlaceOf(all[i]) == p;
      assert all[i] in first;
      var j :| 0 <= j < |first| && first[j] == all[i];
      assert Places(first)[j] == p;
    }
  }

  /**
   Deeper contributions win on every server if and only if the list without repeats ends its folders
   in the same order as all contributions do: no folder is named again below another one.
   */
  lemma DeepestWinsIff(all: seq<string>)
    ensures (forall server :: DeepestWins(server, all)) <==>
            LastOccurrences(Places(Dedup(all))) == LastOccurrences(Places(all))
  {
    var first, last := LastOccurrences(Places(Dedup(all))), LastOccurrences(Places(all));
    if first == last {
      forall server ensures DeepestWins(server, all) {
        MergeSeesLastOccurrences(server, Places(Dedup(all)));
        MergeSeesLastOccurrences(server, Places(all));
      }
    } else {
      SamePlaces(all);
      LastOccurrencesEachOnce(Places(Dedup(all)));
      LastOccurrencesEachOnce(Places(all));
      var i, j, k, l := OppositeOrders(first, last);
      var p, q := first[i], first[j];
      LaterOfTwoShows(p, q, first, i, j);
      LaterOfTwoShows(p, q, last, k, l);
      MergeSeesLastOccurrences(Rivals(p, q), Places(Dedup(all)));
      MergeSeesLastOccurrences(Rivals(p, q), Places(all));
      assert !DeepestWins(Rivals(p, q), all);
    }
  }

  /** For every configuration: the deepest contribution wins on every server if and only if none is so repeated. */
  lemma DeepestConfigWinsIff(configs: seq<Located>, dir: Dir)
    ensures (forall server :: DeepestWins(server, Contributed(configs, dir))) <==>
            LastOccurrences(Places(Paths(configs, dir))) == LastOccurrences(Places(Contributed(configs, dir)))
  {
    DeepestWinsIff(Contributed(configs, dir));
  }

  function Importing(imported: string, path: string): ProjectConfig {
    ProjectConfig(None, None, Some(path), [imported], [])
  }

  /**
   A leaf config that imports what the root imports already: every push shows, but the import is read
   under the root's own path, although the leaf contributed it after that.
   */
  lemma RepeatedImportLoses(x: string, a: string, c: string, l: string)
    requires PlaceOf(x) != PlaceOf(a) && PlaceOf(x) != PlaceOf(c) && PlaceOf(a) != PlaceOf(c)
    ensures var configs := [Located([l], Importing(x, c)), Located([], Importing(x, a))];
            var server := Rivals(PlaceOf(x), PlaceOf(a));
            var shown := View(server, Places(Paths(configs, [l])));
            && Contributed(configs, [l]) == [x, a, x, c] && Paths(configs, [l]) == [x, a, c]
            && NothingNewAfterLeaf(configs, [l])
            && "KEY" in shown && shown["KEY"] == "second"
            && !DeepestWins(server, [x, a, x, c])
  {
    var configs := [Located([l], Importing(x, c)), Located([], Importing(x, a))];
    ImportingContributes(x, a, c, l);
    ImportingPaths(x, a, c);
    ImportingPlaces(x, a, c);
    LastPlaceIff([x, a, x, c], PlaceOf(c));
    ImportIsShadowed(PlaceOf(x), PlaceOf(a), PlaceOf(c));
  }

  lemma ImportingPlaces(x: string, a: string, c: string)
    ensures Places([x, a, c]) == [PlaceOf(x), PlaceOf(a), PlaceOf(c)]
    ensures Places([x, a, x, c]) == [PlaceOf(x), PlaceOf(a), PlaceOf(x), PlaceOf(c)]
  {
  }

  lemma ImportingPaths(x: string, a: string, c: string)
    requires x != a && x != c && a != c
    ensures Dedup([x, a, x, c]) == [x, a, c]
  {
    DedupOfThree(x, a, x);
    DedupSnoc([x, a, x], c);
    assert [x, a, x] + [c] == [x, a, x, c] && [x, a] + [c] == [x, a, c];
  }

  lemma ImportingContributes(x: string, a: string, c: string, l: string)
    ensures Contributed([Located([l], Importing(x, c)), Located([], Importing(x, a))], [l]) == [x, a, x, c]
    ensures Leaf([Located([l], Importing(x, c)), Located([], Importing(x, a))], [l]) == c
  {
    var leaf, root := Located([l], Importing(x, c)), Located([], Importing(x, a));
    ContributionsCons(leaf, [root]);
    ContributionsCons(root, []);
    assert [leaf] + [root] == [leaf, root] && [root] + [] == [root];
    assert [] + ([x] + [a]) == [x, a] && [x, a] + ([x] + [c]) == [x, a, x, c];
    WithoutInlineEntries([leaf, root], [l]);
  }

  lemma ImportIsShadowed(x: Place, a: Place, c: Place)
    requires x != a && x != c && a != c
    ensures var shown := Merged(Rivals(x, a), [x, a, c]);
            "KEY" in shown && shown["KEY"] == Secret("second", false) && !IsFileKey("KEY")
            && "KEY" in Visible(shown) && Visible(shown)["KEY"] == "second"
    ensures Merged(Rivals(x, a), [x, a, c]) != Merged(Rivals(x, a), [x, a, x, c])
  {
    LaterOfTwoShows(x, a, [x, a, c], 0, 1);
    LaterRivalShows(x, a, [x, a, x, c], 2);
  }
}
