/**
 From configuration to push: when the path list that `resolveConfig` builds makes a push visible to
 the next diff.
 */
module CliPush {
  import opened Wrappers
  import opened Text
  import opened CliConfig
  import opened CliView
  import Dotenv

  /** No write waits for approval or is refused. */
  const OPEN := Rules({}, {})

  /** No local key stands for a file or has a name the server refuses, and values are stored as sent. */
  predicate Writable(server: Server, leaf: Place, local: map<string, string>) {
    forall key :: key in local ==>
                    && !IsFileKey(key) && !(key in FolderAt(server, leaf) && FolderAt(server, leaf)[key].file)
                    && AcceptedName(Trim(key)) && Stored(local[key]) == local[key]
  }

  /** After a push of `local` the diff reports nothing added or changed. */
  predicate CleanAfterPush(server: Server, paths: seq<Place>, leaf: Place, keys: seq<string>,
                           local: map<string, string>)
    requires forall i :: 0 <= i < |keys| ==> keys[i] in local
  {
    var diff := DiffOf(local, View(Pushed(server, paths, leaf, keys, local, OPEN), paths));
    diff.added == {} && diff.changed == {}
  }

  ghost predicate PushShows(server: Server, paths: seq<Place>, leaf: Place, keys: seq<string>,
                            local: map<string, string>) {
    ListsKeys(keys, local) && Writable(server, leaf, local) ==> CleanAfterPush(server, paths, leaf, keys, local)
  }

  ghost predicate EveryPushShows(paths: seq<Place>, leaf: Place) {
    forall server, keys, local :: PushShows(server, paths, leaf, keys, local)
  }

  /** What the configs read, and where they write. */
  function Paths(configs: seq<Located>, dir: Dir): seq<string> {
    Dedup(Contributed(configs, dir))
  }

  function Leaf(configs: seq<Located>, dir: Dir): string
    requires configs != []
  {
    SecretPath(Primary(configs, dir))
  }

  /** Nothing but repeats is contributed after the first occurrence of some spelling of the leaf folder. */
  ghost predicate NothingNewAfterLeaf(configs: seq<Located>, dir: Dir)
    requires configs != []
  {
    NothingNewAfterPlace(Contributed(configs, dir), PlaceOf(Leaf(configs, dir)))
  }

  ghost predicate NothingNewAfterPlace(all: seq<string>, place: Place) {
    exists path :: path in all && PlaceOf(path) == place && NothingNewAfter(all, path)
  }

  predicate NothingNewAfter(all: seq<string>, path: string)
    requires path in all
  {
    forall p :: p in all ==> p in all[..FirstIndex(all, path) + 1]
  }

  lemma LastPlaceIff(all: seq<string>, place: Place)
    requires all != []
    ensures Dedup(all) != []
    ensures PlaceOf(Dedup(all)[|Dedup(all)| - 1]) == place <==> NothingNewAfterPlace(all, place)
  {
    LastPathIff(all, all[0]);
    var last := Dedup(all)[|Dedup(all)| - 1];
    DedupKeepsEachOnce(all);
    assert last in Dedup(all);
    LastPathIff(all, last);
    assert NothingNewAfter(all, last);
    if path :| path in all && PlaceOf(path) == place && NothingNewAfter(all, path) {
      LastPathIff(all, path);
    }
  }

  /**
   For every configuration: every push of names the server takes and values it stores as sent, to
   every server, is clean in the next diff if and only if no path of another folder is new after the
   leaf path's first occurrence. It is when a deeper config repeats a path of a higher one.
   */
  lemma EveryPushShowsIff(configs: seq<Located>, dir: Dir)
    requires configs != []
    ensures var paths, leaf := Places(Paths(configs, dir)), PlaceOf(Leaf(configs, dir));
            EveryPushShows(paths, leaf) <==> NothingNewAfterLeaf(configs, dir)
  {
    var all, leaf := Contributed(configs, dir), Leaf(configs, dir);
    assert all != [] by {
      LeafIsContributedLast(configs, dir);
    }
    ListShowsIff(all, PlaceOf(leaf));
  }

  lemma ListShowsIff(all: seq<string>, leaf: Place)
    requires all != []
    ensures EveryPushShows(Places(Dedup(all)), leaf) <==> NothingNewAfterPlace(all, leaf)
  {
    LastPlaceIff(all, leaf);
    LeafLastIff(Places(Dedup(all)), leaf);
  }

  lemma LeafLastIff(paths: seq<Place>, leaf: Place)
    requires paths != []
    ensures EveryPushShows(paths, leaf) <==> paths[|paths| - 1] == leaf
  {
    if paths[|paths| - 1] == leaf {
      forall server, keys, local ensures PushShows(server, paths, leaf, keys, local) {
        LeafLastShows(server, paths, leaf, keys, local);
      }
    } else {
      var server, keys, local := LeafHidden(paths, leaf);
      assert !PushShows(server, paths, leaf, keys, local);
    }
  }

  lemma LeafLastShows(server: Server, paths: seq<Place>, leaf: Place, keys: seq<string>, local: map<string, string>)
    requires paths != [] && paths[|paths| - 1] == leaf
    ensures PushShows(server, paths, leaf, keys, local)
  {
    if ListsKeys(keys, local) && Writable(server, leaf, local) {
      forall key | key in local ensures Settles(server, paths, leaf, keys, local, OPEN, key) {
        AllLandUnlessRefused(server, paths, keys, local, OPEN, key);
      }
      PushThenDiffIff(server, paths, leaf, keys, local, OPEN);
    }
  }

  /** A server on which a folder after the leaf hides the pushed value. */
  lemma LeafHidden(paths: seq<Place>, leaf: Place) returns (server: Server, keys: seq<string>,
                                                            local: map<string, string>)
    requires paths != [] && paths[|paths| - 1] != leaf
    ensures !PushShows(server, paths, leaf, keys, local)
  {
    TrimFacts("KEY");
    TrimFacts("ours");
    server, keys, local := HiddenBy(paths, leaf, "KEY", "ours", "theirs");
  }

  lemma HiddenBy(paths: seq<Place>, leaf: Place, key: string, ours: string, theirs: string)
    returns (server: Server, keys: seq<string>, local: map<string, string>)
    requires paths != [] && paths[|paths| - 1] != leaf
    requires TrimStable(key) && AcceptedName(key) && !IsFileKey(key) && Stored(ours) == ours && ours != theirs
    ensures !PushShows(server, paths, leaf, keys, local)
  {
    var top := paths[|paths| - 1];
    server := Server(map[top := map[key := Secret(theirs, false)]], map[]);
    keys, local := [key], map[key := ours];
    TrimFacts(key);
    assert ListsKeys(keys, local) by {
      assert keys[0] == key;
    }
    assert Writable(server, leaf, local);
    LaterPathHidesPush(server, paths, leaf, keys, local, OPEN, key);
  }

  /** Writes go to `a`, which the root contributed first, and `b` between the two is read over it. */
  lemma RepeatedLeafIsHidden(a: string, b: string, m: string, l: string)
    returns (server: Server, keys: seq<string>, local: map<string, string>)
    requires PlaceOf(a) != PlaceOf(b)
    ensures var configs := [Located([m, l], PathOnly(a)), Located([m], PathOnly(b)), Located([], PathOnly(a))];
            && Paths(configs, [m, l]) == [a, b] && Leaf(configs, [m, l]) == a
            && !PushShows(server, Places([a, b]), PlaceOf(a), keys, local)
  {
    var configs := [Located([m, l], PathOnly(a)), Located([m], PathOnly(b)), Located([], PathOnly(a))];
    ThreeContributions(PathOnly(a), PathOnly(b), PathOnly(a), [m, l], [m], []);
    assert Contributions(PathOnly(a)) == [a] && Contributions(PathOnly(b)) == [b] && [a] + [b] + [a] == [a, b, a];
    WithoutInlineEntries(configs, [m, l]);
    DedupOfThree(a, b, a);
    server, keys, local := LeafHidden(Places([a, b]), PlaceOf(a));
  }

  lemma ContributionsCons(first: Located, rest: seq<Located>)
    ensures AllContributions([first] + rest) == AllContributions(rest) + Contributions(first.config)
  {
    assert ([first] + rest)[1..] == rest;
  }

  lemma ThreeContributions(c1: ProjectConfig, c2: ProjectConfig, c3: ProjectConfig, d1: Dir, d2: Dir, d3: Dir)
    ensures AllContributions([Located(d1, c1), Located(d2, c2), Located(d3, c3)])
            == Contributions(c3) + Contributions(c2) + Contributions(c1)
  {
    var l1, l2, l3 := Located(d1, c1), Located(d2, c2), Located(d3, c3);
    ContributionsCons(l1, [l2, l3]);
    ContributionsCons(l2, [l3]);
    ContributionsCons(l3, []);
    assert [l1] + [l2, l3] == [l1, l2, l3] && [l2] + [l3] == [l2, l3] && [l3] + [] == [l3];
    assert [] + Contributions(c3) == Contributions(c3);
  }

  lemma DedupOfThree(a: string, b: string, c: string)
    requires a != b
    ensures Dedup([a, b, c]) == if c == a || c == b then [a, b] else [a, b, c]
  {
    DedupSnoc([], a);
    DedupSnoc([a], b);
    DedupSnoc([a, b], c);
    assert [] + [a] == [a] && [a] + [b] == [a, b] && [a, b] + [c] == [a, b, c];
  }

  function PathOnly(path: string): ProjectConfig {
    ProjectConfig(None, None, Some(path), [], [])
  }

  lemma {:induction false} NoInlineEntries(configs: seq<Located>, dir: Dir)
    requires forall i :: 0 <= i < |configs| ==> configs[i].config.projects == []
    ensures Synthetic(configs, dir) == None
  {
    if configs != [] {
      NoInlineEntries(configs[..|configs| - 1], dir);
    }
  }

  lemma WithoutInlineEntries(configs: seq<Located>, dir: Dir)
    requires configs != [] && forall i :: 0 <= i < |configs| ==> configs[i].config.projects == []
    ensures Contributed(configs, dir) == AllContributions(configs)
            && Leaf(configs, dir) == SecretPath(configs[0].config)
  {
    NoInlineEntries(configs, dir);
  }

  // The pushed file.

  /** The keys of a parsed file, each once, are what a push expects: the parser leaves them trimmed. */
  lemma ParsedFileIsListed(text: string, keys: seq<string>)
    requires var local := Dotenv.ParseLines(Split(text, '\n'));
             && (forall key :: key in local <==> key in keys)
             && (forall i, j :: 0 <= i < j < |keys| ==> keys[i] != keys[j])
    ensures ListsKeys(keys, Dotenv.ParseLines(Split(text, '\n')))
  {
    var lines := Split(text, '\n');
    SplitParts(text, '\n');
    forall i | 0 <= i < |keys| ensures keys[i] in Dotenv.ParseLines(lines) && TrimStable(keys[i]) {
      assert keys[i] in keys;
      Dotenv.ParsedIsClean(lines, keys[i]);
    }
  }

  /** A quoted value keeps its spaces in the file. */
  lemma QuotedLineParses(key: string, value: string)
    requires Dotenv.CleanKey(key) && value != [] && '"' !in value
    ensures Dotenv.ParseLines([key + ['='] + (['"'] + value + ['"'])]) == map[key := value]
  {
    var rendered := ['"'] + value + ['"'];
    var lines := [key + ['='] + rendered];
    Dotenv.RenderedLineParses(key, rendered);
    assert Dotenv.Escape(value) == value;
    Dotenv.QuotedReread(value);
    assert lines[..0] == [] && Dotenv.ParseLines(lines[..0]) == map[];
  }

  /**
   The file of one line, `A=" x "`: as long as the server does not show exactly that value already,
   the diff after a push reports the key, and the server does not show the value then either.
   */
  lemma SpacesAreReported(server: Server, paths: seq<Place>, leaf: Place)
    requires paths != [] && paths[|paths| - 1] == leaf
    requires var view := View(server, paths); !("A" in view && view["A"] == " x ")
    ensures Dotenv.ParseLines(["A" + ['='] + (['"'] + " x " + ['"'])]) == map["A" := " x "]
    ensures var local := map["A" := " x "];
            var after := View(Pushed(server, paths, leaf, ["A"], local, OPEN), paths);
            && "A" in DiffOf(local, after).added + DiffOf(local, after).changed
            && !("A" in after && after["A"] == " x ")
  {
    QuotedLineParses("A", " x ");
    SpacesAreTrimmed("A", " x ", server, paths, leaf);
  }

  lemma SpacesAreTrimmed(key: string, value: string, server: Server, paths: seq<Place>, leaf: Place)
    requires TrimStable(key) && !TrimStable(value) && value[|value| - 1] != '\n'
    requires paths != [] && paths[|paths| - 1] == leaf
    requires var view := View(server, paths); !(key in view && view[key] == value)
    ensures var local := map[key := value];
            var after := View(Pushed(server, paths, leaf, [key], local, OPEN), paths);
            && key in DiffOf(local, after).added + DiffOf(local, after).changed
            && !(key in after && after[key] == value)
  {
    StoredAsSentIff(value);
    assert [key][0] == key;
    UnstableValueIsReported(server, paths, leaf, [key], map[key := value], OPEN, key);
  }
}
