/**
 The layered view of remote secrets and what a push does to it: reads merge a list of paths, the last
 one winning; writes go to the leaf path. The server trims what it is sent, and may refuse it.
 */
module CliView {
  import opened Wrappers
  import opened Text

  /** A stored secret; `file` says that its metadata marks it as a file. */
  datatype Secret = Secret(value: string, file: bool)

  type Folder = map<string, Secret>

  // A folder of the server, as its names from the root.
  type Place = seq<string>

  /** The secrets of each folder, and the folders each folder imports from. */
  datatype Server = Server(folders: map<Place, Folder>, links: map<Place, seq<Place>>)

  function NonEmpty(names: seq<string>): seq<string> {
    if names == [] then []
    else (if names[0] == [] then [] else [names[0]]) + NonEmpty(names[1..])
  }

  /** The folder a path names: trimmed, and without regard to doubled or trailing slashes. */
  function PlaceOf(path: string): Place {
    NonEmpty(Split(Trim(path), '/'))
  }

  function Places(paths: seq<string>): (places: seq<Place>)
    ensures |places| == |paths|
  {
    seq(|paths|, i requires 0 <= i < |paths| => PlaceOf(paths[i]))
  }

  const FILE_PREFIX := "FILE__"

  predicate IsFileKey(key: string) {
    FILE_PREFIX <= key
  }

  function FolderAt(server: Server, path: Place): Folder {
    if path in server.folders then server.folders[path] else map[]
  }

  function LinksOf(server: Server, path: Place): seq<Place> {
    if path in server.links then server.links[path] else []
  }

  /** What a list of paths shows, later ones over earlier ones. */
  function Layered(server: Server, paths: seq<Place>): Folder {
    if paths == [] then map[]
    else Layered(server, paths[..|paths| - 1]) + FolderAt(server, paths[|paths| - 1])
  }

  /** What one path shows: its imports under its own secrets. */
  function Layer(server: Server, path: Place): Folder {
    Layered(server, LinksOf(server, path)) + FolderAt(server, path)
  }

  /** Path after path, later ones over earlier ones. */
  function Merged(server: Server, paths: seq<Place>): Folder {
    if paths == [] then map[]
    else Merged(server, paths[..|paths| - 1]) + Layer(server, paths[|paths| - 1])
  }

  /** Secrets of a folder without the file secrets. */
  function Visible(folder: Folder): map<string, string> {
    map key | key in folder && !folder[key].file && !IsFileKey(key) :: folder[key].value
  }

  function View(server: Server, paths: seq<Place>): map<string, string> {
    Visible(Merged(server, paths))
  }

  method FetchMergedSecretObjects(server: Server, paths: seq<string>) returns (merged: Folder)
    ensures merged == Merged(server, Places(paths))
  {
    merged := map[];
    ghost var places := Places(paths);
    for i := 0 to |paths|
      invariant merged == Merged(server, places[..i])
    {
      assert places[..i + 1][..i] == places[..i];
      merged := MergeLayer(server, PlaceOf(paths[i]), merged);
    }
    assert places[..|paths|] == places;
  }

  /** One path's imports, then its own secrets. */
  method MergeLayer(server: Server, place: Place, before: Folder) returns (merged: Folder)
    ensures merged == before + Layer(server, place)
  {
    merged := before;
    var links := LinksOf(server, place);
    for j := 0 to |links|
      invariant merged == before + Layered(server, links[..j])
    {
      assert links[..j + 1][..j] == links[..j];
      LayersAssociate(before, Layered(server, links[..j]), FolderAt(server, links[j]));
      merged := merged + FolderAt(server, links[j]);
    }
    assert links[..|links|] == links;
    LayersAssociate(before, Layered(server, links), FolderAt(server, place));
    merged := merged + FolderAt(server, place);
  }

  lemma LayersAssociate(a: Folder, b: Folder, c: Folder)
    ensures (a + b) + c == a + (b + c)
  {
  }

  // Writing.

  /** What becomes of a value: trimmed, but for one line feed at its end. */
  function Stored(value: string): string {
    if value != [] && value[|value| - 1] == '\n' then Trim(value) + ['\n'] else Trim(value)
  }

  /** Values without a line feed at the end are stored as sent exactly if they have no space at the ends. */
  lemma StoredAsSentIff(value: string)
    requires value != [] ==> value[|value| - 1] != '\n'
    ensures Stored(value) == value <==> TrimStable(value)
  {
    TrimFacts(value);
  }

  /** How the project treats writes: names that wait for approval, and names its rules refuse. */
  datatype Rules = Rules(queued: set<string>, refused: set<string>)

  /** The server takes any name but an empty one and one with a colon or a slash. */
  predicate AcceptedName(name: string) {
    name != [] && ':' !in name && '/' !in name
  }

  predicate Accepts(rules: Rules, key: string) {
    AcceptedName(Trim(key)) && Trim(key) !in rules.refused
  }

  /**
   Create, or update when the server says the key exists; an update keeps the metadata. A write the
   server queues for approval changes nothing yet.
   */
  function Upserted(server: Server, place: Place, key: string, value: string, queued: set<string>): Server {
    var name := Trim(key);
    if name in queued then server
    else
      var folder := FolderAt(server, place);
      var file := if name in folder then folder[name].file else false;
      server.(folders := server.folders[place := folder[name := Secret(Stored(value), file)]])
  }

  datatype Verb = Created | Updated

  datatype Reply = Done(server: Server) | Conflict | Refused

  /** The server's create: validation first, then a conflict when the folder holds the name. */
  function ServerCreate(server: Server, place: Place, key: string, value: string, rules: Rules): Reply {
    var name, folder := Trim(key), FolderAt(server, place);
    if !AcceptedName(name) then Refused
    else if name in folder then Conflict
    else if name in rules.refused then Refused
    else if name in rules.queued then Done(server)
    else Done(server.(folders := server.folders[place := folder[name := Secret(Stored(value), false)]]))
  }

  /** The server's update: a new value under the metadata the secret has. */
  function ServerUpdate(server: Server, place: Place, key: string, value: string, rules: Rules): Reply
    requires Trim(key) in FolderAt(server, place)
  {
    var name, folder := Trim(key), FolderAt(server, place);
    if name == [] || name in rules.refused then Refused
    else if name in rules.queued then Done(server)
    else Done(server.(folders := server.folders[place := folder[name := folder[name].(value := Stored(value))]]))
  }

  /** No verb: the server refused the write, and the error is passed on. */
  method UpsertSecret(server: Server, place: Place, key: string, value: string, rules: Rules)
    returns (after: Server, verb: Option<Verb>)
    ensures verb.Some? <==> Accepts(rules, key)
    ensures after == if Accepts(rules, key) then Upserted(server, place, key, value, rules.queued) else server
    ensures verb.Some? ==> (verb.value == Created <==> Trim(key) !in FolderAt(server, place))
  {
    var created := ServerCreate(server, place, key, value, rules);
    match created
    case Done(s) => return s, Some(Created);
    case Refused => return server, None;
    case Conflict =>
      var updated := ServerUpdate(server, place, key, value, rules);
      match updated
      case Done(s) => return s, Some(Updated);
      case _ => return server, None;
  }

  function AllUpserted(server: Server, place: Place, keys: seq<string>, values: map<string, string>,
                       queued: set<string>): Server
    requires forall i :: 0 <= i < |keys| ==> keys[i] in values
  {
    if keys == [] then server
    else
      var last := keys[|keys| - 1];
      Upserted(AllUpserted(server, place, keys[..|keys| - 1], values, queued), place, last, values[last], queued)
  }

  /** How many of the writes go through before the first one the server refuses. */
  function Reached(keys: seq<string>, rules: Rules): (n: nat)
    ensures n <= |keys|
    ensures forall i :: 0 <= i < n ==> Accepts(rules, keys[i])
    ensures n < |keys| ==> !Accepts(rules, keys[n])
  {
    if keys == [] || !Accepts(rules, keys[0]) then 0 else 1 + Reached(keys[1..], rules)
  }

  /** Local keys the view lacks, and local keys it shows with another value, in the file's order. */
  function ToAdd(keys: seq<string>, view: map<string, string>): seq<string> {
    if keys == [] then []
    else ToAdd(keys[..|keys| - 1], view) + if keys[|keys| - 1] in view then [] else [keys[|keys| - 1]]
  }

  function ToUpdate(keys: seq<string>, local: map<string, string>, view: map<string, string>): seq<string>
    requires forall i :: 0 <= i < |keys| ==> keys[i] in local
  {
    if keys == [] then []
    else
      var last := keys[|keys| - 1];
      ToUpdate(keys[..|keys| - 1], local, view) + if last in view && view[last] != local[last] then [last] else []
  }

  lemma {:induction false} ToAddIff(keys: seq<string>, view: map<string, string>, key: string)
    ensures key in ToAdd(keys, view) <==> key in keys && key !in view
  {
    if keys != [] {
      ToAddIff(keys[..|keys| - 1], view, key);
      assert keys == keys[..|keys| - 1] + [keys[|keys| - 1]];
    }
  }

  lemma {:induction false} ToUpdateIff(keys: seq<string>, local: map<string, string>, view: map<string, string>,
                                       key: string)
    requires forall i :: 0 <= i < |keys| ==> keys[i] in local
    ensures key in ToUpdate(keys, local, view) <==> key in keys && key in view && view[key] != local[key]
  {
    if keys != [] {
      ToUpdateIff(keys[..|keys| - 1], local, view, key);
      assert keys == keys[..|keys| - 1] + [keys[|keys| - 1]];
    }
  }

  /** The keys of the local file, each once, trimmed as the parser leaves them. */
  ghost predicate ListsKeys(keys: seq<string>, local: map<string, string>) {
    && (forall i :: 0 <= i < |keys| ==> keys[i] in local && TrimStable(keys[i]))
    && (forall key :: key in local ==> key in keys)
    && (forall i, j :: 0 <= i < j < |keys| ==> keys[i] != keys[j])
  }

  lemma WriteIsLocal(keys: seq<string>, local: map<string, string>, view: map<string, string>, key: string)
    requires forall i :: 0 <= i < |keys| ==> keys[i] in local
    requires key in ToAdd(keys, view) || key in ToUpdate(keys, local, view)
    ensures key in local
  {
    ToAddIff(keys, view, key);
    ToUpdateIff(keys, local, view, key);
  }

  /** The keys a push writes: the added ones, then the updated ones. */
  function Writes(keys: seq<string>, local: map<string, string>, view: map<string, string>): (writes: seq<string>)
    requires forall i :: 0 <= i < |keys| ==> keys[i] in local
    ensures forall i :: 0 <= i < |writes| ==> writes[i] in local
  {
    var writes := ToAdd(keys, view) + ToUpdate(keys, local, view);
    assert forall i :: 0 <= i < |writes| ==> writes[i] in local by {
      forall i | 0 <= i < |writes| ensures writes[i] in local {
        WriteIsLocal(keys, local, view, writes[i]);
      }
    }
    writes
  }

  /** The writes that go through. */
  function Landing(server: Server, paths: seq<Place>, keys: seq<string>, local: map<string, string>, rules: Rules)
    : (writes: seq<string>)
    requires forall i :: 0 <= i < |keys| ==> keys[i] in local
    ensures forall i :: 0 <= i < |writes| ==> writes[i] in local
  {
    var writes := Writes(keys, local, View(server, paths));
    writes[..Reached(writes, rules)]
  }

  /** The state after a push of `local` to the leaf folder. */
  function Pushed(server: Server, paths: seq<Place>, leaf: Place, keys: seq<string>, local: map<string, string>,
                  rules: Rules): Server
    requires forall i :: 0 <= i < |keys| ==> keys[i] in local
  {
    AllUpserted(server, leaf, Landing(server, paths, keys, local, rules), local, rules.queued)
  }

  /** A refused write ends the push where it stands; `completed` says that there was none. */
  method PushEnvFile(server: Server, paths: seq<string>, leaf: string, keys: seq<string>, local: map<string, string>,
                     rules: Rules)
    returns (after: Server, pushed: nat, approvals: nat, completed: bool)
    requires ListsKeys(keys, local)
    ensures after == Pushed(server, Places(paths), PlaceOf(leaf), keys, local, rules)
    ensures var landing := Landing(server, Places(paths), keys, local, rules);
            approvals == |Only(landing, rules.queued)| && pushed == |landing| - approvals
    ensures completed <==> forall key :: key in Writes(keys, local, View(server, Places(paths))) ==> Accepts(rules, key)
  {
    var objects := FetchMergedSecretObjects(server, paths);
    var remote := Visible(objects);
    var toAdd, toUpdate := Classify(keys, local, remote);
    ghost var writes := Writes(keys, local, remote);
    forall i | 0 <= i < |writes| ensures TrimStable(writes[i]) {
      WriteIsTrimmed(keys, local, remote, i);
    }
    after, pushed, approvals, completed := WriteAll(server, PlaceOf(leaf), toAdd + toUpdate, local, rules);
  }

  /** The writing loop. */
  method WriteAll(server: Server, place: Place, writes: seq<string>, local: map<string, string>, rules: Rules)
    returns (after: Server, pushed: nat, approvals: nat, completed: bool)
    requires forall i :: 0 <= i < |writes| ==> writes[i] in local && TrimStable(writes[i])
    ensures var landing := writes[..Reached(writes, rules)];
            && after == AllUpserted(server, place, landing, local, rules.queued)
            && approvals == |Only(landing, rules.queued)| && pushed == |landing| - approvals
    ensures completed <==> forall key :: key in writes ==> Accepts(rules, key)
  {
    after, pushed, approvals := server, 0, 0;
    for i := 0 to |writes|
      invariant i <= Reached(writes, rules)
      invariant after == AllUpserted(server, place, writes[..i], local, rules.queued)
      invariant approvals == |Only(writes[..i], rules.queued)| && pushed + approvals == i
    {
      var key, verb := writes[i], None;
      OnlyNext(writes, rules.queued, i);
      UpsertNext(server, place, writes, local, rules.queued, i);
      after, verb := UpsertSecret(after, place, key, local[key], rules);
      if verb.None? {
        assert key in writes && !Accepts(rules, key) && Reached(writes, rules) == i;
        return after, pushed, approvals, false;
      }
      if key in rules.queued {
        approvals := approvals + 1;
      } else {
        pushed := pushed + 1;
      }
    }
    assert writes[..|writes|] == writes;
    completed := true;
  }

  lemma UpsertNext(server: Server, place: Place, writes: seq<string>, values: map<string, string>, queued: set<string>,
                   i: nat)
    requires i < |writes| && forall j :: 0 <= j < |writes| ==> writes[j] in values
    ensures AllUpserted(server, place, writes[..i + 1], values, queued)
            == Upserted(AllUpserted(server, place, writes[..i], values, queued), place, writes[i], values[writes[i]],
                        queued)
  {
    assert writes[..i + 1][..i] == writes[..i];
  }

  lemma WriteIsTrimmed(keys: seq<string>, local: map<string, string>, view: map<string, string>, i: nat)
    requires ListsKeys(keys, local) && i < |Writes(keys, local, view)|
    ensures var key := Writes(keys, local, view)[i]; key in keys && TrimStable(key)
  {
    var key := Writes(keys, local, view)[i];
    ToAddIff(keys, view, key);
    ToUpdateIff(keys, local, view, key);
  }

  method Classify(keys: seq<string>, local: map<string, string>, remote: map<string, string>)
    returns (toAdd: seq<string>, toUpdate: seq<string>)
    requires forall i :: 0 <= i < |keys| ==> keys[i] in local
    ensures toAdd == ToAdd(keys, remote) && toUpdate == ToUpdate(keys, local, remote)
  {
    toAdd, toUpdate := [], [];
    for i := 0 to |keys|
      invariant toAdd == ToAdd(keys[..i], remote) && toUpdate == ToUpdate(keys[..i], local, remote)
    {
      assert keys[..i + 1][..i] == keys[..i];
      var key := keys[i];
      if key !in remote {
        toAdd := toAdd + [key];
      } else if remote[key] != local[key] {
        toUpdate := toUpdate + [key];
      }
    }
    assert keys[..|keys|] == keys;
  }

  // Diffing.

  datatype Diff = Diff(added: set<string>, changed: set<string>, removed: set<string>, same: set<string>)

  function DiffOf(local: map<string, string>, remote: map<string, string>): Diff {
    Diff(local.Keys - remote.Keys,
         (set key | key in local && key in remote && local[key] != remote[key]),
         remote.Keys - local.Keys,
         (set key | key in local && key in remote && local[key] == remote[key]))
  }

  /** Every key of either side is in exactly one class, and the same ones are those with one value on both sides. */
  lemma DiffPartitions(local: map<string, string>, remote: map<string, string>, key: string)
    ensures var diff := DiffOf(local, remote);
            && (key in local || key in remote <==>
                key in diff.added || key in diff.changed || key in diff.removed || key in diff.same)
            && (key in diff.added ==> key !in diff.changed && key !in diff.removed && key !in diff.same)
            && (key in diff.changed ==> key !in diff.removed && key !in diff.same)
            && (key in diff.removed ==> key !in diff.same)
            && (key in diff.same ==> key in local && key in remote && local[key] == remote[key])
  {
  }

  /** The keys that are in the set, in order. */
  function Only(keys: seq<string>, chosen: set<string>): seq<string> {
    if keys == [] then []
    else
      var last := keys[|keys| - 1];
      Only(keys[..|keys| - 1], chosen) + if last in chosen then [last] else []
  }

  lemma OnlyNext(keys: seq<string>, chosen: set<string>, i: nat)
    requires i < |keys|
    ensures Only(keys[..i + 1], chosen) == Only(keys[..i], chosen) + if keys[i] in chosen then [keys[i]] else []
  {
    assert keys[..i + 1][..i] == keys[..i];
  }

  lemma {:induction false} OnlyIff(keys: seq<string>, chosen: set<string>, key: string)
    ensures key in Only(keys, chosen) <==> key in keys && key in chosen
  {
    if keys != [] {
      OnlyIff(keys[..|keys| - 1], chosen, key);
      assert keys == keys[..|keys| - 1] + [keys[|keys| - 1]];
    }
  }

  /** The classification loop over all keys of both sides. */
  method DiffOne(local: map<string, string>, remote: map<string, string>, allKeys: seq<string>)
    returns (added: seq<string>, changed: seq<string>, removed: seq<string>, same: nat)
    requires forall key :: key in allKeys <==> key in local || key in remote
    ensures var diff := DiffOf(local, remote);
            && added == Only(allKeys, diff.added) && changed == Only(allKeys, diff.changed)
            && removed == Only(allKeys, diff.removed) && same == |Only(allKeys, diff.same)|
  {
    added, changed, removed, same := [], [], [], 0;
    ghost var diff := DiffOf(local, remote);
    for i := 0 to |allKeys|
      invariant added == Only(allKeys[..i], diff.added) && changed == Only(allKeys[..i], diff.changed)
      invariant removed == Only(allKeys[..i], diff.removed) && same == |Only(allKeys[..i], diff.same)|
    {
      var key := allKeys[i];
      OnlyNext(allKeys, diff.added, i);
      OnlyNext(allKeys, diff.changed, i);
      OnlyNext(allKeys, diff.removed, i);
      OnlyNext(allKeys, diff.same, i);
      assert key in allKeys;
      if key in local && key !in remote {
        added := added + [key];
      } else if key !in local && key in remote {
        removed := removed + [key];
      } else if local[key] != remote[key] {
        changed := changed + [key];
      } else {
        same := same + 1;
      }
    }
    assert allKeys[..|allKeys|] == allKeys;
  }

  // Push, then diff.

  lemma UpsertKeyByKey(server: Server, leaf: Place, written: string, value: string, queued: set<string>, path: Place,
                       key: string)
    requires TrimStable(written)
    ensures var after := Upserted(server, leaf, written, value, queued);
            var old_, new_ := FolderAt(server, path), FolderAt(after, path);
            && after.links == server.links
            && (if path == leaf && key == written && key !in queued then
                  key in new_ && new_[key] == Secret(Stored(value), key in old_ && old_[key].file)
                else
                  (key in new_ <==> key in old_) && (key in old_ ==> new_[key] == old_[key]))
  {
    TrimFacts(written);
  }

  /** What the write of a list of distinct keys leaves in the leaf folder, key by key. */
  lemma {:induction false} UpsertsKeyByKey(server: Server, leaf: Place, keys: seq<string>, values: map<string, string>,
                                           queued: set<string>, path: Place, key: string)
    requires forall i :: 0 <= i < |keys| ==> keys[i] in values && TrimStable(keys[i])
    ensures var after := AllUpserted(server, leaf, keys, values, queued);
            var old_, new_ := FolderAt(server, path), FolderAt(after, path);
            && after.links == server.links
            && (if path == leaf && key in keys && key !in queued then
                  key in new_ && new_[key] == Secret(Stored(values[key]), key in old_ && old_[key].file)
                else
                  (key in new_ <==> key in old_) && (key in old_ ==> new_[key] == old_[key]))
  {
    if keys != [] {
      var n := |keys| - 1;
      UpsertsKeyByKey(server, leaf, keys[..n], values, queued, path, key);
      var before := AllUpserted(server, leaf, keys[..n], values, queued);
      UpsertKeyByKey(before, leaf, keys[n], values[keys[n]], queued, path, key);
      assert keys == keys[..n] + [keys[n]];
    }
  }

  predicate SameAt(a: Folder, b: Folder, key: string) {
    (key in a <==> key in b) && (key in a ==> a[key] == b[key])
  }

  lemma {:induction false} LayersLocal(a: Server, b: Server, paths: seq<Place>, key: string)
    requires forall path :: SameAt(FolderAt(a, path), FolderAt(b, path), key)
    ensures SameAt(Layered(a, paths), Layered(b, paths), key)
  {
    if paths != [] {
      LayersLocal(a, b, paths[..|paths| - 1], key);
      assert SameAt(FolderAt(a, paths[|paths| - 1]), FolderAt(b, paths[|paths| - 1]), key);
    }
  }

  /** A key is shown alike by two servers that hold it alike in every folder. */
  lemma {:induction false} MergeIsKeyLocal(a: Server, b: Server, paths: seq<Place>, key: string)
    requires a.links == b.links
    requires forall path :: SameAt(FolderAt(a, path), FolderAt(b, path), key)
    ensures SameAt(Merged(a, paths), Merged(b, paths), key)
  {
    if paths != [] {
      var path := paths[|paths| - 1];
      MergeIsKeyLocal(a, b, paths[..|paths| - 1], key);
      LayersLocal(a, b, LinksOf(a, path), key);
      assert SameAt(FolderAt(a, path), FolderAt(b, path), key);
    }
  }

  /** A key that needs no write, or whose write goes through, lands, shows, and stores what was sent. */
  predicate Settles(server: Server, paths: seq<Place>, leaf: Place, keys: seq<string>, local: map<string, string>,
                    rules: Rules, key: string)
    requires key in local && forall i :: 0 <= i < |keys| ==> keys[i] in local
  {
    var view := View(server, paths);
    || (key in view && view[key] == local[key])
    || (&& key in Landing(server, paths, keys, local, rules) && key !in rules.queued
        && !IsFileKey(key) && !(key in FolderAt(server, leaf) && FolderAt(server, leaf)[key].file)
        && Stored(local[key]) == local[key])
  }

  /** The keys that need a write, before and after the refusals. */
  lemma LandingIsTrimmed(server: Server, paths: seq<Place>, keys: seq<string>, local: map<string, string>, rules: Rules)
    requires ListsKeys(keys, local)
    ensures forall i :: 0 <= i < |Landing(server, paths, keys, local, rules)| ==>
                          TrimStable(Landing(server, paths, keys, local, rules)[i])
  {
    var view := View(server, paths);
    var writes := Writes(keys, local, view);
    forall i | 0 <= i < |writes| ensures TrimStable(writes[i]) {
      WriteIsTrimmed(keys, local, view, i);
    }
  }

  lemma LandingNeedsWrite(server: Server, paths: seq<Place>, keys: seq<string>, local: map<string, string>,
                          rules: Rules, key: string)
    requires ListsKeys(keys, local) && key in Landing(server, paths, keys, local, rules)
    ensures var view := View(server, paths); key in local && !(key in view && view[key] == local[key])
  {
    var view := View(server, paths);
    assert key in Writes(keys, local, view);
    ToAddIff(keys, view, key);
    ToUpdateIff(keys, local, view, key);
  }

  /** How one key looks after the push. */
  lemma KeyAfterPush(server: Server, paths: seq<Place>, leaf: Place, keys: seq<string>, local: map<string, string>,
                     rules: Rules, key: string)
    requires ListsKeys(keys, local)
    requires paths != [] && paths[|paths| - 1] == leaf
    ensures var before, after := View(server, paths), View(Pushed(server, paths, leaf, keys, local, rules), paths);
            if key in local then
              key in after && after[key] == local[key] <==> Settles(server, paths, leaf, keys, local, rules, key)
            else
              (key in after <==> key in before) && (key in before ==> after[key] == before[key])
  {
    var landing := Landing(server, paths, keys, local, rules);
    var t := Pushed(server, paths, leaf, keys, local, rules);
    LandingIsTrimmed(server, paths, keys, local, rules);
    UpsertsKeyByKey(server, leaf, landing, local, rules.queued, leaf, key);
    if key in landing {
      LandingNeedsWrite(server, paths, keys, local, rules, key);
    }
    if key in landing && key !in rules.queued {
      assert key in FolderAt(t, leaf) && Merged(t, paths)[key] == FolderAt(t, leaf)[key];
    } else {
      forall path ensures SameAt(FolderAt(t, path), FolderAt(server, path), key) {
        UpsertsKeyByKey(server, leaf, landing, local, rules.queued, path, key);
      }
      MergeIsKeyLocal(t, server, paths, key);
    }
  }

  /**
   Push then diff, when the leaf folder is the last one merged: nothing is reported added or changed
   if and only if every local key settles; and remote-only secrets are the same as before.
   */
  lemma PushThenDiffIff(server: Server, paths: seq<Place>, leaf: Place, keys: seq<string>, local: map<string, string>,
                        rules: Rules)
    requires ListsKeys(keys, local)
    requires paths != [] && paths[|paths| - 1] == leaf
    ensures var before := View(server, paths);
            var after := View(Pushed(server, paths, leaf, keys, local, rules), paths);
            var diff := DiffOf(local, after);
            && (diff.added == {} && diff.changed == {} <==>
                forall key :: key in local ==> Settles(server, paths, leaf, keys, local, rules, key))
            && diff.removed == DiffOf(local, before).removed
            && forall key :: key in diff.removed ==> after[key] == before[key]
  {
    var before := View(server, paths);
    var after := View(Pushed(server, paths, leaf, keys, local, rules), paths);
    var diff := DiffOf(local, after);
    forall key
      ensures key in local ==>
                (key !in diff.added && key !in diff.changed <==>
                 Settles(server, paths, leaf, keys, local, rules, key))
      ensures key !in local ==> (key in after <==> key in before) && (key in before ==> after[key] == before[key])
    {
      KeyAfterPush(server, paths, leaf, keys, local, rules, key);
    }
  }

  /** When nothing is refused every key that needs a write is written. */
  lemma AllLandUnlessRefused(server: Server, paths: seq<Place>, keys: seq<string>, local: map<string, string>,
                             rules: Rules, key: string)
    requires ListsKeys(keys, local) && key in local && forall k :: k in local ==> Accepts(rules, k)
    ensures var view := View(server, paths);
            key in Landing(server, paths, keys, local, rules) <==> !(key in view && view[key] == local[key])
  {
    var view := View(server, paths);
    var writes := Writes(keys, local, view);
    ToAddIff(keys, view, key);
    ToUpdateIff(keys, local, view, key);
    assert Reached(writes, rules) == |writes| && writes[..|writes|] == writes;
  }

  /** A value that is not stored as sent is reported by the diff after every push of it. */
  lemma UnstableValueIsReported(server: Server, paths: seq<Place>, leaf: Place, keys: seq<string>,
                                local: map<string, string>, rules: Rules, key: string)
    requires ListsKeys(keys, local) && paths != [] && paths[|paths| - 1] == leaf
    requires key in local && Stored(local[key]) != local[key]
    requires var view := View(server, paths); !(key in view && view[key] == local[key])
    ensures var after := View(Pushed(server, paths, leaf, keys, local, rules), paths);
            !(key in after && after[key] == local[key])
    ensures var diff := DiffOf(local, View(Pushed(server, paths, leaf, keys, local, rules), paths));
            key in diff.added + diff.changed
  {
    KeyAfterPush(server, paths, leaf, keys, local, rules, key);
  }

  /** A file of two new keys the first of which the server refuses: the push ends there, and writes neither. */
  lemma RefusedNameStopsPush(leaf: Place, bad: string, good: string, local: map<string, string>, rules: Rules)
    requires local.Keys == {bad, good} && bad != good && TrimStable(bad) && TrimStable(good) && !Accepts(rules, bad)
    ensures var server, keys := Server(map[], map[]), [bad, good];
            && ListsKeys(keys, local)
            && Pushed(server, [leaf], leaf, keys, local, rules) == server
            && !Settles(server, [leaf], leaf, keys, local, rules, good)
  {
    var server, keys := Server(map[], map[]), [bad, good];
    assert keys[0] == bad && keys[1] == good;
    EmptyServerShowsNothing([leaf]);
    AllToAdd(keys, local);
    assert Writes(keys, local, View(server, [leaf])) == keys;
    assert Landing(server, [leaf], keys, local, rules) == [];
  }

  /** For example, whatever the values and the other rules. */
  lemma ColonStopsPush(leaf: Place, value: string, other: string, rules: Rules)
    ensures Pushed(Server(map[], map[]), [leaf], leaf, ["A:B", "C"], map["A:B" := value, "C" := other], rules)
            == Server(map[], map[])
  {
    TrimFacts("A:B");
    assert "A:B"[1] == ':';
    RefusedNameStopsPush(leaf, "A:B", "C", map["A:B" := value, "C" := other], rules);
  }

  lemma {:induction false} EmptyServerShowsNothing(paths: seq<Place>)
    ensures Merged(Server(map[], map[]), paths) == map[] && View(Server(map[], map[]), paths) == map[]
  {
    if paths != [] {
      EmptyServerShowsNothing(paths[..|paths| - 1]);
    }
  }

  lemma {:induction false} AllToAdd(keys: seq<string>, local: map<string, string>)
    requires forall i :: 0 <= i < |keys| ==> keys[i] in local
    ensures ToAdd(keys, map[]) == keys && ToUpdate(keys, local, map[]) == []
  {
    if keys != [] {
      AllToAdd(keys[..|keys| - 1], local);
    }
  }

  /** Why the leaf must come last: a folder after it hides what was pushed. */
  lemma LaterPathHidesPush(server: Server, paths: seq<Place>, leaf: Place, keys: seq<string>,
                           local: map<string, string>, rules: Rules, key: string)
    requires ListsKeys(keys, local) && key in local && !IsFileKey(key)
    requires paths != [] && paths[|paths| - 1] != leaf
    requires var top := FolderAt(server, paths[|paths| - 1]);
             key in top && !top[key].file && top[key].value != local[key]
    ensures key in DiffOf(local, View(Pushed(server, paths, leaf, keys, local, rules), paths)).changed
  {
    LandingIsTrimmed(server, paths, keys, local, rules);
    UpsertsKeyByKey(server, leaf, Landing(server, paths, keys, local, rules), local, rules.queued, paths[|paths| - 1],
                    key);
  }

  // What is shown and what is sent, told by examples of every kind.

  /** Among imports the last one that holds a key gives its secret. */
  lemma {:induction false} LastImportShows(server: Server, places: seq<Place>, i: nat, key: string)
    requires i < |places| && key in FolderAt(server, places[i])
    requires forall j :: i < j < |places| ==> key !in FolderAt(server, places[j])
    ensures key in Layered(server, places) && Layered(server, places)[key] == FolderAt(server, places[i])[key]
  {
    if i < |places| - 1 {
      LastImportShows(server, places[..|places| - 1], i, key);
    }
  }

  /** Among the folders of the list likewise, each with its imports under its own secrets. */
  lemma {:induction false} LastLayerShows(server: Server, places: seq<Place>, i: nat, key: string)
    requires i < |places| && key in Layer(server, places[i])
    requires forall j :: i < j < |places| ==> key !in Layer(server, places[j])
    ensures key in Merged(server, places) && Merged(server, places)[key] == Layer(server, places[i])[key]
    ensures key in FolderAt(server, places[i]) ==> Merged(server, places)[key] == FolderAt(server, places[i])[key]
  {
    if i < |places| - 1 {
      LastLayerShows(server, places[..|places| - 1], i, key);
    }
  }

  /** Files are not shown, told by their mark or by their name; everything else is. */
  lemma VisibleIff(folder: Folder, key: string)
    ensures key in Visible(folder) <==> key in folder && !folder[key].file && !(|key| >= 6 && key[..6] == "FILE__")
    ensures key in Visible(folder) ==> Visible(folder)[key] == folder[key].value
  {
  }

  /** Space around a value is not stored, but a line feed at its very end is. */
  lemma StoredIs(before: string, value: string, after: string)
    requires AllSpace(before) && AllSpace(after) && TrimStable(value)
    ensures Stored(before + value + after + ['\n']) == value + ['\n']
    ensures (before + value + after != [] ==> (before + value + after)[|before + value + after| - 1] != '\n') ==>
              Stored(before + value + after) == value
  {
    TrimPadded(before, value, after);
    TrimPadded(before, value, after + ['\n']);
    assert before + value + (after + ['\n']) == before + value + after + ['\n'];
  }

  lemma NamesRefused(name: string, other: string, rules: Rules)
    ensures AllSpace(name) ==> !Accepts(rules, name)
    ensures TrimStable(name + [':'] + other) ==> !Accepts(rules, name + [':'] + other)
    ensures TrimStable(name + ['/'] + other) ==> !Accepts(rules, name + ['/'] + other)
  {
    if AllSpace(name) {
      TrimPadded(name, [], []);
      assert name + [] + [] == name;
    }
    TrimFacts(name + [':'] + other);
    TrimFacts(name + ['/'] + other);
    assert (name + [':'] + other)[|name|] == ':' && (name + ['/'] + other)[|name|] == '/';
  }

  /** Listing goes key by key, in the order of the file. */
  lemma {:induction false} ListingAppends(front: seq<string>, back: seq<string>, local: map<string, string>,
                                          view: map<string, string>, chosen: set<string>)
    requires forall key :: key in front || key in back ==> key in local
    ensures ToAdd(front + back, view) == ToAdd(front, view) + ToAdd(back, view)
    ensures ToUpdate(front + back, local, view) == ToUpdate(front, local, view) + ToUpdate(back, local, view)
    ensures Only(front + back, chosen) == Only(front, chosen) + Only(back, chosen)
  {
    if back == [] {
      assert front + back == front;
    } else {
      var before, last := back[..|back| - 1], back[|back| - 1];
      assert (front + back)[..|front + back| - 1] == front + before;
      ListingAppends(front, before, local, view, chosen);
    }
  }

  lemma ListingOne(key: string, local: map<string, string>, view: map<string, string>, chosen: set<string>)
    requires key in local
    ensures ToAdd([key], view) == if key in view then [] else [key]
    ensures ToUpdate([key], local, view) == if key in view && view[key] != local[key] then [key] else []
    ensures Only([key], chosen) == if key in chosen then [key] else []
  {
    assert [key][..0] == [];
  }

  /** Additions are sent before updates: they all land, whatever becomes of the updates. */
  lemma AddsLandFirst(server: Server, paths: seq<Place>, keys: seq<string>, local: map<string, string>, rules: Rules)
    requires ListsKeys(keys, local)
    requires forall key :: key in local && key !in View(server, paths) ==> Accepts(rules, key)
    ensures ToAdd(keys, View(server, paths)) <= Landing(server, paths, keys, local, rules)
  {
    var view := View(server, paths);
    var adds, writes := ToAdd(keys, view), Writes(keys, local, view);
    var n := Reached(writes, rules);
    if n < |adds| {
      assert writes[n] == adds[n] && adds[n] in adds;
      ToAddIff(keys, view, adds[n]);
    }
    assert writes[..n][..|adds|] == adds;
  }

  /** Paths are read as the names between their slashes, with or without one at the end. */
  lemma {:induction false} NonEmptyKeeps(names: seq<string>)
    requires forall i :: 0 <= i < |names| ==> names[i] != []
    ensures NonEmpty(names) == names
  {
    if names != [] {
      NonEmptyKeeps(names[1..]);
    }
  }

  lemma PlaceOfNames(names: seq<string>)
    requires names != [] && forall i :: 0 <= i < |names| ==> names[i] != [] && '/' !in names[i]
    requires TrimStable(['/'] + Join(names, '/'))
    ensures PlaceOf(['/'] + Join(names, '/')) == names && PlaceOf(['/'] + Join(names, '/') + ['/']) == names
  {
    var path := ['/'] + Join(names, '/');
    SplitPath(names);
    NonEmptyKeeps(names);
    TrimFacts(path);
    TrimFacts(path + ['/']);
    assert NonEmpty([[]] + names) == NonEmpty(names) by {
      NonEmptyAppend([[]], names);
    }
    NonEmptyAppend([[]] + names, [[]]);
  }

  lemma SplitPath(names: seq<string>)
    requires names != [] && forall i :: 0 <= i < |names| ==> '/' !in names[i]
    ensures Split(['/'] + Join(names, '/'), '/') == [[]] + names
    ensures Split(['/'] + Join(names, '/') + ['/'], '/') == [[]] + names + [[]]
  {
    var path := ['/'] + Join(names, '/');
    SplitJoin(names, '/');
    SplitCons('/', Join(names, '/'), '/');
    SplitAppend(path, '/', []);
    assert path + ['/'] + [] == path + ['/'];
  }

  lemma RootPlace()
    ensures PlaceOf(['/']) == [] && PlaceOf([]) == []
  {
    TrimFacts(['/']);
    SplitCons('/', [], '/');
    assert ['/'] + [] == ['/'] && Split(['/'], '/') == [[], []];
  }

  lemma {:induction false} NonEmptyAppend(front: seq<string>, back: seq<string>)
    ensures NonEmpty(front + back) == NonEmpty(front) + NonEmpty(back)
  {
    if front == [] {
      assert front + back == back;
    } else {
      assert (front + back)[1..] == front[1..] + back;
      NonEmptyAppend(front[1..], back);
    }
  }
}
