// api/plugins/loader.py: what the loader remembers about the discovered plugins, how `discover` fills
// it, how a late sidecar is added to it, and what the lookups and registry listings make of it.

module PluginRegistry {
  import opened Collections

  /** A value in a plugin.json manifest or in a registry entry. */
  datatype Field = Text(text: string) | Names(names: set<string>) | Flag(flag: bool) | Source(url: string, ref: string)

  type Manifest = map<string, Field>

  /** A directory as the sequence of its path components. */
  type Path = seq<string>

  datatype Plugin = Plugin(id: string, manifest: Manifest, dir: Path, sidecar: bool)

  /** A folder found by the directory scan; None when its plugin.json cannot be read. */
  datatype Candidate = Candidate(folder: string, manifest: Option<Manifest>, dir: Path)

  /** The three collections that the retry thread and the readers share. */
  datatype Registry = Registry(discovered: seq<Plugin>, dirs: map<string, Path>, permissions: map<string, set<string>>)

  const DYNAMIC_PLUGINS_DIR: Path := ["app", "plugins_dynamic"]

  predicate Truthy(field: Field) {
    match field
    case Text(text) => text != ""
    case Names(names) => names != {}
    case Flag(flag) => flag
    case Source(_, _) => true
  }

  predicate Has(manifest: Manifest, key: string) {
    key in manifest && Truthy(manifest[key])
  }

  predicate ValidManifest(manifest: Manifest) {
    Has(manifest, "name") && Has(manifest, "version") && Has(manifest, "description")
  }

  function Hyphenate(s: string): string {
    seq(|s|, i requires 0 <= i < |s| => if s[i] == '_' then '-' else s[i])
  }

  function Lower(s: string): string {
    seq(|s|, i requires 0 <= i < |s| => if 'A' <= s[i] <= 'Z' then (s[i] as int + 32) as char else s[i])
  }

  function Permitted(plugin: Plugin): set<string> {
    if "permitted_core_tables" in plugin.manifest && plugin.manifest["permitted_core_tables"].Names?
    then plugin.manifest["permitted_core_tables"].names else {}
  }

  /** The second name under which a plugin's permissions are filed: its manifest name, normalised. */
  function Alias(plugin: Plugin): Option<string> {
    if Has(plugin.manifest, "name") && plugin.manifest["name"].Text? && plugin.manifest["name"].text != plugin.id
    then Some(Hyphenate(Lower(plugin.manifest["name"].text)))
    else None
  }

  // ----- discovery -------------------------------------------------------------------------

  /** The plugins the directory scan accepts, in scan order. */
  function Scanned(candidates: seq<Candidate>): seq<Plugin> {
    if |candidates| == 0 then []
    else
      var last := candidates[|candidates| - 1];
      var id := Hyphenate(last.folder);
      Scanned(candidates[..|candidates| - 1]) +
      (if last.manifest.Some? && ValidManifest(last.manifest.value)
       then [Plugin(id, last.manifest.value, last.dir, false)] else [])
  }

  /** The plugin a scanned folder stands for, if its manifest can be read and is complete. */
  predicate Accepts(candidate: Candidate, plugin: Plugin) {
    && candidate.manifest.Some? && ValidManifest(candidate.manifest.value)
    && plugin == Plugin(Hyphenate(candidate.folder), candidate.manifest.value, candidate.dir, false)
  }

  /**
   * The scan finds a plugin for every folder with a valid manifest and for no other. A leading underscore
   * keeps no folder out: the id is normalised before it is tested.
   */
  lemma {:induction false} ScannedExactly(candidates: seq<Candidate>, plugin: Plugin)
    ensures plugin in Scanned(candidates) <==> exists i :: 0 <= i < |candidates| && Accepts(candidates[i], plugin)
  {
    if |candidates| > 0 {
      var n := |candidates| - 1;
      ScannedExactly(candidates[..n], plugin);
      if i :| 0 <= i < n && Accepts(candidates[..n][i], plugin) {
        assert Accepts(candidates[i], plugin);
      }
      if i :| 0 <= i < |candidates| && Accepts(candidates[i], plugin) && i < n {
        assert Accepts(candidates[..n][i], plugin);
      }
    }
  }

  /** What the scan finds are no sidecars, and each stands in a scanned directory under its hyphenated folder name. */
  lemma ScannedAreLocal(candidates: seq<Candidate>, plugin: Plugin)
    requires plugin in Scanned(candidates)
    ensures !plugin.sidecar
    ensures exists c :: c in candidates && plugin.id == Hyphenate(c.folder) && plugin.dir == c.dir && c.manifest == Some(plugin.manifest)
  {
    ScannedExactly(candidates, plugin);
    var i :| 0 <= i < |candidates| && Accepts(candidates[i], plugin);
    assert candidates[i] in candidates;
  }

  /** For example, a folder with a leading underscore is found, under an id with a leading hyphen. */
  lemma UnderscoreFolderIsFound(manifest: Manifest, dir: Path)
    requires ValidManifest(manifest)
    ensures Plugin("-private", manifest, dir, false) in Scanned([Candidate("_private", Some(manifest), dir)])
  {
    var candidates, plugin := [Candidate("_private", Some(manifest), dir)], Plugin("-private", manifest, dir, false);
    assert Hyphenate("_private") == "-private";
    assert Accepts(candidates[0], plugin);
    ScannedExactly(candidates, plugin);
  }

  /** {p.plugin_id: p.plugin_dir for p in plugins} */
  function DirIndex(plugins: seq<Plugin>): map<string, Path> {
    if |plugins| == 0 then map[]
    else
      var last := plugins[|plugins| - 1];
      DirIndex(plugins[..|plugins| - 1])[last.id := last.dir]
  }

  function Claim(permissions: map<string, set<string>>, plugin: Plugin): map<string, set<string>> {
    var own := permissions[plugin.id := Permitted(plugin)];
    if Alias(plugin).Some? then own[Alias(plugin).value := Permitted(plugin)] else own
  }

  function PermissionIndex(plugins: seq<Plugin>): map<string, set<string>> {
    if |plugins| == 0 then map[]
    else Claim(PermissionIndex(plugins[..|plugins| - 1]), plugins[|plugins| - 1])
  }

  function Discovered(plugins: seq<Plugin>): Registry {
    Registry(plugins, DirIndex(plugins), PermissionIndex(plugins))
  }

  /** The critical section of the retry thread. It files the permissions under the id only. */
  function AddLate(registry: Registry, plugin: Plugin): Registry {
    Registry(registry.discovered + [plugin],
             registry.dirs[plugin.id := plugin.dir],
             registry.permissions[plugin.id := Permitted(plugin)])
  }

  function AddAllLate(base: seq<Plugin>, late: seq<Plugin>): Registry {
    if |late| == 0 then Discovered(base)
    else AddLate(AddAllLate(base, late[..|late| - 1]), late[|late| - 1])
  }

  lemma AddOneLate(base: seq<Plugin>, late: seq<Plugin>, more: seq<Plugin>, plugin: Plugin)
    ensures AddAllLate(base, late + (more + [plugin])) == AddLate(AddAllLate(base, late + more), plugin)
  {
    var all := late + (more + [plugin]);
    assert all[..|all| - 1] == late + more && all[|all| - 1] == plugin;
  }

  predicate Files(base: nat, plugins: seq<Plugin>, i: nat, key: string)
    requires i < |plugins|
  {
    key == plugins[i].id || (i < base && Alias(plugins[i]) == Some(key))
  }

  /** `i` is the last plugin that `files` its entry under `key`. */
  predicate LastFiler(base: nat, plugins: seq<Plugin>, i: nat, key: string) {
    && i < |plugins| && Files(base, plugins, i, key)
    && forall j :: i < j < |plugins| ==> !Files(base, plugins, j, key)
  }

  lemma {:induction false} DirIndexIsLastWins(plugins: seq<Plugin>, id: string)
    ensures (forall i :: 0 <= i < |plugins| ==> plugins[i].id != id) ==> id !in DirIndex(plugins)
    ensures forall i: nat :: LastWith(plugins, i, id) ==> id in DirIndex(plugins) && DirIndex(plugins)[id] == plugins[i].dir
  {
    if |plugins| > 0 {
      var n := |plugins| - 1;
      DirIndexIsLastWins(plugins[..n], id);
      forall i: nat | LastWith(plugins, i, id)
        ensures id in DirIndex(plugins) && DirIndex(plugins)[id] == plugins[i].dir
      {
        if i < n {
          assert plugins[n].id != id;
          assert LastWith(plugins[..n], i, id);
        }
      }
    }
  }

  /** `i` is the last plugin with this id. */
  predicate LastWith(plugins: seq<Plugin>, i: nat, id: string) {
    i < |plugins| && plugins[i].id == id && forall j :: i < j < |plugins| ==> plugins[j].id != id
  }

  /** What a look-up in the directory cache of these plugins gives. */
  function DirOf(plugins: seq<Plugin>, id: string): Option<Path> {
    if id in DirIndex(plugins) then Some(DirIndex(plugins)[id]) else None
  }

  lemma {:induction false} SomeoneIsLast(plugins: seq<Plugin>, i: nat) returns (last: nat)
    requires i < |plugins|
    ensures LastWith(plugins, last, plugins[i].id)
  {
    var n := |plugins| - 1;
    if plugins[n].id == plugins[i].id {
      last := n;
    } else {
      last := SomeoneIsLast(plugins[..n], i);
      assert forall j :: last < j < |plugins| ==> j == n || plugins[j] == plugins[..n][j];
    }
  }

  /** A later registration of the plugin's id, by another plugin with a different directory, is the last one. */
  ghost predicate Superseded(plugins: seq<Plugin>, i: nat, m: nat) {
    i < |plugins| && LastWith(plugins, m, plugins[i].id) && m != i && plugins[m].dir != plugins[i].dir
  }

  /**
   * A plugin of an older copy of the list, looked up in the cache of the newer list `plugins`, has a directory
   * not its own exactly when the last plugin with its id is another one in a different directory.
   */
  lemma ShownElsewhereIff(copied: seq<Plugin>, plugins: seq<Plugin>, i: nat)
    requires copied <= plugins && i < |copied|
    ensures DirOf(plugins, copied[i].id).Some?
    ensures DirOf(plugins, copied[i].id) != Some(copied[i].dir) <==> exists m: nat :: Superseded(plugins, i, m)
  {
    var last := SomeoneIsLast(plugins, i);
    DirIndexIsLastWins(plugins, copied[i].id);
    assert DirOf(plugins, copied[i].id) == Some(plugins[last].dir);
    if plugins[last].dir != copied[i].dir {
      assert Superseded(plugins, i, last);
    }
    if m: nat :| Superseded(plugins, i, m) {
      assert m == last;
    }
  }

  lemma {:induction false} FiledByLast(plugins: seq<Plugin>, key: string, i: nat)
    requires LastFiler(|plugins|, plugins, i, key)
    ensures key in PermissionIndex(plugins) && PermissionIndex(plugins)[key] == Permitted(plugins[i])
  {
    var n := |plugins| - 1;
    if i < n {
      assert !Files(|plugins|, plugins, n, key);
      assert LastFiler(n, plugins[..n], i, key) by {
        assert forall j: nat :: j < n ==> (Files(n, plugins[..n], j, key) <==> Files(n + 1, plugins, j, key));
      }
      FiledByLast(plugins[..n], key, i);
    }
  }

  lemma {:induction false} FiledByNobody(plugins: seq<Plugin>, key: string)
    requires forall i: nat :: i < |plugins| ==> !Files(|plugins|, plugins, i, key)
    ensures key !in PermissionIndex(plugins)
  {
    if |plugins| > 0 {
      var n := |plugins| - 1;
      assert !Files(n + 1, plugins, n, key);
      assert forall j: nat :: j < n ==> (Files(n, plugins[..n], j, key) <==> Files(n + 1, plugins, j, key));
      FiledByNobody(plugins[..n], key);
    }
  }

  /** After discovery and any number of late sidecars the directory cache indexes the whole list. */
  lemma {:induction false} LateKeepsDirIndex(base: seq<Plugin>, late: seq<Plugin>)
    ensures AddAllLate(base, late).discovered == base + late
    ensures AddAllLate(base, late).dirs == DirIndex(base + late)
    decreases |late|
  {
    if |late| == 0 {
      assert base + late == base;
    } else {
      var n := |late| - 1;
      LateKeepsDirIndex(base, late[..n]);
      assert (base + late)[..|base + late| - 1] == base + late[..n];
      assert base + late == base + late[..n] + [late[n]];
    }
  }

  /**
   * The permissions filed under a key are those of the last plugin that files under it: by its id or,
   * for a plugin found by `discover` itself, by its manifest name. Nothing is filed under other keys.
   */
  lemma {:induction false} PermissionsAreLastWins(base: seq<Plugin>, late: seq<Plugin>, key: string)
    ensures forall i: nat :: LastFiler(|base|, base + late, i, key) ==>
              key in AddAllLate(base, late).permissions && AddAllLate(base, late).permissions[key] == Permitted((base + late)[i])
    ensures (forall i: nat :: i < |base + late| ==> !Files(|base|, base + late, i, key)) ==>
              key !in AddAllLate(base, late).permissions
    decreases |late|
  {
    var plugins := base + late;
    if |late| == 0 {
      assert plugins == base;
      forall i: nat | LastFiler(|base|, plugins, i, key)
        ensures key in PermissionIndex(base) && PermissionIndex(base)[key] == Permitted(plugins[i])
      {
        FiledByLast(base, key, i);
      }
      if forall i: nat :: i < |plugins| ==> !Files(|base|, plugins, i, key) {
        FiledByNobody(base, key);
      }
    } else {
      var n := |late| - 1;
      var shorter := base + late[..n];
      PermissionsAreLastWins(base, late[..n], key);
      assert plugins == shorter + [late[n]];
      OneMoreFiler(|base|, shorter, late[n], key);
    }
  }

  lemma OneMoreFiler(base: nat, shorter: seq<Plugin>, plugin: Plugin, key: string)
    requires base <= |shorter|
    ensures var plugins := shorter + [plugin];
            && (Files(base, plugins, |shorter|, key) <==> key == plugin.id)
            && (forall i: nat :: i < |shorter| ==> (Files(base, plugins, i, key) <==> Files(base, shorter, i, key)))
            && (forall i: nat :: LastFiler(base, plugins, i, key) && i < |shorter| ==> key != plugin.id && LastFiler(base, shorter, i, key))
            && (forall i: nat :: LastFiler(base, plugins, i, key) && i >= |shorter| ==> key == plugin.id && i == |shorter|)
  {
    var plugins := shorter + [plugin];
    forall i: nat | LastFiler(base, plugins, i, key) && i < |shorter|
      ensures key != plugin.id && LastFiler(base, shorter, i, key)
    {
      assert !Files(base, plugins, |shorter|, key);
      assert forall j: nat :: j < |shorter| ==> (Files(base, plugins, j, key) <==> Files(base, shorter, j, key));
    }
  }

  // ----- sidecar probes --------------------------------------------------------------------

  /** What a sidecar answered at a given attempt; None when it was not reachable. */
  type Answers = (nat, string) -> Option<Manifest>

  function Probe(name: string, answer: Option<Manifest>): Option<Plugin> {
    if answer.Some? && ValidManifest(answer.value) then Some(Plugin(name, answer.value, ["sidecar", name], true)) else None
  }

  /** One round over the pending names: the plugins found, and the names still pending. */
  function RoundFound(names: seq<string>, attempt: nat, answers: Answers): seq<Plugin> {
    if |names| == 0 then []
    else
      var rest := RoundFound(names[1..], attempt, answers);
      match Probe(names[0], answers(attempt, names[0]))
      case Some(plugin) => [plugin] + rest
      case None => rest
  }

  function RoundPending(names: seq<string>, attempt: nat, answers: Answers): seq<string> {
    if |names| == 0 then []
    else
      var rest := RoundPending(names[1..], attempt, answers);
      if Probe(names[0], answers(attempt, names[0])).Some? then rest else [names[0]] + rest
  }

  /** A round, seen from its end: the last name adds to the plugins found or to the names pending. */
  lemma {:induction false} RoundOneMore(names: seq<string>, i: nat, attempt: nat, answers: Answers)
    requires i < |names|
    ensures var found, pending := RoundFound(names[..i], attempt, answers), RoundPending(names[..i], attempt, answers);
            match Probe(names[i], answers(attempt, names[i]))
            case Some(plugin) =>
              RoundFound(names[..i + 1], attempt, answers) == found + [plugin]
              && RoundPending(names[..i + 1], attempt, answers) == pending
            case None =>
              RoundFound(names[..i + 1], attempt, answers) == found
              && RoundPending(names[..i + 1], attempt, answers) == pending + [names[i]]
    decreases i
  {
    if i > 0 {
      RoundOneMore(names[1..], i - 1, attempt, answers);
      assert names[..i][1..] == names[1..][..i - 1] && names[..i + 1][1..] == names[1..][..i];
    }
  }

  const RETRY_ATTEMPTS: nat := 10

  /** The plugins the retry thread registers, from round `attempt` on. */
  function RetryFound(names: seq<string>, attempt: nat, answers: Answers): seq<Plugin>
    decreases RETRY_ATTEMPTS + 1 - attempt, names
  {
    if attempt > RETRY_ATTEMPTS || |names| == 0 then []
    else RoundFound(names, attempt, answers) + RetryFound(RoundPending(names, attempt, answers), attempt + 1, answers)
  }

  lemma RetryOneRound(late: seq<Plugin>, names: seq<string>, attempt: nat, answers: Answers)
    requires attempt <= RETRY_ATTEMPTS && |names| > 0
    ensures var found, pending := RoundFound(names, attempt, answers), RoundPending(names, attempt, answers);
            && late + RetryFound(names, attempt, answers) == late + found + RetryFound(pending, attempt + 1, answers)
            && RetryPending(names, attempt, answers) == RetryPending(pending, attempt + 1, answers)
  {
    Associates(late, RoundFound(names, attempt, answers),
               RetryFound(RoundPending(names, attempt, answers), attempt + 1, answers));
  }

  function RetryPending(names: seq<string>, attempt: nat, answers: Answers): seq<string>
    decreases RETRY_ATTEMPTS + 1 - attempt, names
  {
    if attempt > RETRY_ATTEMPTS || |names| == 0 then names
    else RetryPending(RoundPending(names, attempt, answers), attempt + 1, answers)
  }

  lemma Associates(a: seq<Plugin>, b: seq<Plugin>, c: seq<Plugin>)
    ensures a + (b + c) == a + b + c
  {
  }

  function Ids(plugins: seq<Plugin>): seq<string> {
    seq(|plugins|, i requires 0 <= i < |plugins| => plugins[i].id)
  }

  lemma IdsOfBoth(first: seq<Plugin>, second: seq<Plugin>)
    ensures multiset(Ids(first + second)) == multiset(Ids(first)) + multiset(Ids(second))
  {
    assert Ids(first + second) == Ids(first) + Ids(second);
  }

  lemma {:induction false} RoundPartitions(names: seq<string>, attempt: nat, answers: Answers)
    ensures multiset(Ids(RoundFound(names, attempt, answers))) + multiset(RoundPending(names, attempt, answers))
         == multiset(names)
  {
    if |names| > 0 {
      RoundPartitions(names[1..], attempt, answers);
      assert multiset(names) == multiset{names[0]} + multiset(names[1..]) by {
        assert names == [names[0]] + names[1..];
      }
      var rest := RoundFound(names[1..], attempt, answers);
      match Probe(names[0], answers(attempt, names[0]))
      case Some(plugin) =>
        IdsOfBoth([plugin], rest);
        assert Ids([plugin]) == [names[0]];
      case None =>
    }
  }

  lemma {:induction false} PendingAfterRound(names: seq<string>, attempt: nat, answers: Answers, name: string)
    ensures name in RoundPending(names, attempt, answers)
       <==> name in names && Probe(name, answers(attempt, name)).None?
  {
    if |names| > 0 {
      PendingAfterRound(names[1..], attempt, answers, name);
    }
  }

  lemma PartitionsCompose(found: seq<Plugin>, later: seq<Plugin>, pending: seq<string>, left: seq<string>, names: seq<string>)
    requires multiset(Ids(found)) + multiset(pending) == multiset(names)
    requires multiset(Ids(later)) + multiset(left) == multiset(pending)
    ensures multiset(Ids(found + later)) + multiset(left) == multiset(names)
  {
    IdsOfBoth(found, later);
  }

  /** Over all ten rounds every name is either registered, once, or left pending. */
  lemma {:induction false} RetryPartitions(names: seq<string>, attempt: nat, answers: Answers)
    ensures multiset(Ids(RetryFound(names, attempt, answers))) + multiset(RetryPending(names, attempt, answers))
         == multiset(names)
    decreases RETRY_ATTEMPTS + 1 - attempt, names
  {
    if attempt <= RETRY_ATTEMPTS && |names| > 0 {
      var found, pending := RoundFound(names, attempt, answers), RoundPending(names, attempt, answers);
      RoundPartitions(names, attempt, answers);
      RetryPartitions(pending, attempt + 1, answers);
      PartitionsCompose(found, RetryFound(pending, attempt + 1, answers),
                        pending, RetryPending(pending, attempt + 1, answers), names);
    } else {
      assert Ids(RetryFound(names, attempt, answers)) == [];
    }
  }

  /** A name is given up exactly when none of its probes gave a valid answer. */
  lemma {:induction false} GivenUpIff(names: seq<string>, attempt: nat, answers: Answers, name: string)
    ensures name in RetryPending(names, attempt, answers)
       <==> name in names && forall a :: attempt <= a <= RETRY_ATTEMPTS ==> Probe(name, answers(a, name)).None?
    decreases RETRY_ATTEMPTS + 1 - attempt, names
  {
    if attempt <= RETRY_ATTEMPTS && |names| > 0 {
      PendingAfterRound(names, attempt, answers, name);
      GivenUpIff(RoundPending(names, attempt, answers), attempt + 1, answers, name);
    }
  }

  // ----- registry entries ------------------------------------------------------------------

  predicate IsDynamic(dirs: map<string, Path>, id: string) {
    id in dirs && DYNAMIC_PLUGINS_DIR <= dirs[id]
  }

  /** One entry of the admin listing; `source` is what the plugin's install file tells, if there is one. */
  function AdminEntry(plugin: Plugin, errors: map<string, string>, dynamic: bool, source: Option<Field>): Manifest {
    var entry := plugin.manifest;
    var entry := if plugin.id in errors then entry["load_error" := Text(errors[plugin.id])] else entry;
    if plugin.sidecar then entry["is_sidecar" := Flag(true)]
    else if dynamic then
      var entry := entry["is_external" := Flag(true)];
      if source.Some? then entry["git_source" := source.value] else entry
    else entry
  }

  /**
   * The external flag of an entry, looked up in the cache of a list at least as new as the copied one, is
   * wrong exactly when a plugin that supersedes the entry's own lives on the other side of the dynamic folder.
   */
  lemma ExternalFlagWrongIff(copied: seq<Plugin>, plugins: seq<Plugin>, i: nat)
    requires copied <= plugins && i < |copied|
    ensures IsDynamic(DirIndex(plugins), copied[i].id) != (DYNAMIC_PLUGINS_DIR <= copied[i].dir)
       <==> exists m: nat :: Superseded(plugins, i, m)
                             && (DYNAMIC_PLUGINS_DIR <= plugins[m].dir) != (DYNAMIC_PLUGINS_DIR <= copied[i].dir)
  {
    var last := SomeoneIsLast(plugins, i);
    DirIndexIsLastWins(plugins, copied[i].id);
    if (DYNAMIC_PLUGINS_DIR <= plugins[last].dir) != (DYNAMIC_PLUGINS_DIR <= copied[i].dir) {
      assert Superseded(plugins, i, last);
    }
    forall m: nat | Superseded(plugins, i, m) ensures m == last {
    }
  }

  /** For example, a dynamic plugin's entry loses its flag once a sidecar of the same name is registered late. */
  lemma LateSidecarTakesFlag(manifest: Manifest)
    ensures var found := Plugin("x", manifest, DYNAMIC_PLUGINS_DIR + ["x"], false);
            var late := Plugin("x", manifest, ["sidecar", "x"], true);
            IsDynamic(DirIndex([found]), "x") && !IsDynamic(DirIndex([found, late]), "x")
  {
    var found, late := Plugin("x", manifest, DYNAMIC_PLUGINS_DIR + ["x"], false), Plugin("x", manifest, ["sidecar", "x"], true);
    DirIndexIsLastWins([found], "x");
    DirIndexIsLastWins([found, late], "x");
    assert LastWith([found], 0, "x") && LastWith([found, late], 1, "x");
    assert DYNAMIC_PLUGINS_DIR[0] == "app" != "sidecar" by { assert "app"[0] != "sidecar"[0]; }
  }

  const SENSITIVE_FIELDS := {"git_source", "load_error", "permitted_core_tables"}

  function PublicEntry(plugin: Plugin, errors: map<string, string>, dynamic: bool): Manifest {
    var entry := (plugin.manifest - SENSITIVE_FIELDS)["has_load_error" := Flag(plugin.id in errors)];
    if plugin.sidecar then entry["is_sidecar" := Flag(true)]
    else if dynamic then entry["is_external" := Flag(true)]
    else entry
  }

  /** The public entry is the admin entry without its sensitive fields, the error text reduced to a flag. */
  lemma PublicIsAdminStripped(plugin: Plugin, errors: map<string, string>, dynamic: bool, source: Option<Field>)
    ensures PublicEntry(plugin, errors, dynamic)
         == (AdminEntry(plugin, errors, dynamic, source) - SENSITIVE_FIELDS)["has_load_error" := Flag(plugin.id in errors)]
    ensures PublicEntry(plugin, errors, dynamic).Keys !! SENSITIVE_FIELDS
  {
    FieldNamesDiffer();
  }

  lemma FieldNamesDiffer()
    ensures "has_load_error" !in SENSITIVE_FIELDS && "is_sidecar" !in SENSITIVE_FIELDS && "is_external" !in SENSITIVE_FIELDS
    ensures "has_load_error" != "is_sidecar" && "has_load_error" != "is_external"
  {
    assert "is_sidecar"[0] == 'i' && "git_source"[0] == 'g' && "load_error"[0] == 'l';
  }

  // ----- the same, field by field ------------------------------------------------------------

  /** The entry's field is set to `value` if `given`, and otherwise what it is in the manifest, present or not. */
  predicate FieldIs(entry: Manifest, manifest: Manifest, field: string, given: bool, value: Field) {
    if given then field in entry && entry[field] == value
    else (field in entry <==> field in manifest) && (field in manifest ==> entry[field] == manifest[field])
  }

  predicate InDynamicFolder(dirs: map<string, Path>, id: string) {
    id in dirs && |dirs[id]| >= 2 && dirs[id][0] == "app" && dirs[id][1] == "plugins_dynamic"
  }

  /** All fields of an admin entry, and when each of the four that the loader sets is set, and to what. */
  predicate IsAdminEntry(entry: Manifest, plugin: Plugin, errors: map<string, string>, dirs: map<string, Path>, sources: map<Path, Field>) {
    var external := !plugin.sidecar && InDynamicFolder(dirs, plugin.id);
    var sourced := external && plugin.dir in sources;
    && FieldIs(entry, plugin.manifest, "load_error", plugin.id in errors, if plugin.id in errors then Text(errors[plugin.id]) else Flag(true))
    && FieldIs(entry, plugin.manifest, "is_sidecar", plugin.sidecar, Flag(true))
    && FieldIs(entry, plugin.manifest, "is_external", external, Flag(true))
    && FieldIs(entry, plugin.manifest, "git_source", sourced, if sourced then sources[plugin.dir] else Flag(true))
    && entry.Keys <= plugin.manifest.Keys + {"load_error", "is_sidecar", "is_external", "git_source"}
    && forall field :: field in plugin.manifest && field !in {"load_error", "is_sidecar", "is_external", "git_source"} ==>
         FieldIs(entry, plugin.manifest, field, false, Flag(true))
  }

  lemma AdminFieldNamesDiffer()
    ensures "load_error" != "is_sidecar" && "load_error" != "is_external" && "load_error" != "git_source"
    ensures "is_sidecar" != "is_external" && "is_sidecar" != "git_source" && "is_external" != "git_source"
    ensures "has_load_error" !in {"load_error", "git_source", "permitted_core_tables", "is_sidecar", "is_external"}
    ensures "is_sidecar" !in {"load_error", "git_source", "permitted_core_tables"}
    ensures "is_external" !in {"load_error", "git_source", "permitted_core_tables"}
  {
    assert "load_error"[0] == 'l' && "git_source"[0] == 'g' && "permitted_core_tables"[0] == 'p' && "has_load_error"[0] == 'h';
    assert "is_sidecar"[0] == 'i' && "is_external"[0] == 'i' && "is_sidecar"[3] == 's' && "is_external"[3] == 'e';
  }

  lemma AdminEntryFields(plugin: Plugin, errors: map<string, string>, dirs: map<string, Path>, sources: map<Path, Field>)
    ensures IsAdminEntry(AdminEntry(plugin, errors, IsDynamic(dirs, plugin.id), if plugin.dir in sources then Some(sources[plugin.dir]) else None),
                         plugin, errors, dirs, sources)
  {
    AdminFieldNamesDiffer();
  }

  /** All fields of a public entry: neither an error text nor an install source nor the permitted tables, but three flags. */
  predicate IsPublicEntry(entry: Manifest, plugin: Plugin, errors: map<string, string>, dirs: map<string, Path>) {
    && "load_error" !in entry && "git_source" !in entry && "permitted_core_tables" !in entry
    && "has_load_error" in entry && entry["has_load_error"] == Flag(plugin.id in errors)
    && FieldIs(entry, plugin.manifest, "is_sidecar", plugin.sidecar, Flag(true))
    && FieldIs(entry, plugin.manifest, "is_external", !plugin.sidecar && InDynamicFolder(dirs, plugin.id), Flag(true))
    && entry.Keys <= plugin.manifest.Keys + {"has_load_error", "is_sidecar", "is_external"}
    && forall field ::
         (field in plugin.manifest
          && field !in {"load_error", "git_source", "permitted_core_tables", "has_load_error", "is_sidecar", "is_external"})
         ==> FieldIs(entry, plugin.manifest, field, false, Flag(true))
  }

  lemma PublicEntryFields(plugin: Plugin, errors: map<string, string>, dirs: map<string, Path>)
    ensures IsPublicEntry(PublicEntry(plugin, errors, IsDynamic(dirs, plugin.id)), plugin, errors, dirs)
  {
    AdminFieldNamesDiffer();
  }

  predicate FilledIn(manifest: Manifest, field: string) {
    field in manifest && manifest[field] != Text("") && manifest[field] != Names({}) && manifest[field] != Flag(false)
  }

  /** A manifest is accepted with a name, a version and a description that are neither missing nor empty. */
  lemma AcceptedManifests(manifest: Manifest)
    ensures ValidManifest(manifest) <==> FilledIn(manifest, "name") && FilledIn(manifest, "version") && FilledIn(manifest, "description")
  {
  }

  /** The id is the folder's name with hyphens for underscores. */
  lemma IdOfFolder(folder: string)
    ensures |Hyphenate(folder)| == |folder|
    ensures forall i :: 0 <= i < |folder| ==> Hyphenate(folder)[i] == if folder[i] == '_' then '-' else folder[i]
  {
  }

  /** A second key for the permissions exists exactly for a name other than the id: in lower case, with hyphens for underscores. */
  lemma AliasOfName(plugin: Plugin, name: string)
    requires "name" in plugin.manifest && plugin.manifest["name"] == Text(name)
    ensures Alias(plugin).Some? <==> name != "" && name != plugin.id
    ensures Alias(plugin).Some? ==> |Alias(plugin).value| == |name|
    ensures Alias(plugin).Some? ==>
              forall i :: 0 <= i < |name| ==>
                Alias(plugin).value[i] == if 'A' <= name[i] <= 'Z' then (name[i] as int - 'A' as int + 'a' as int) as char
                                          else if name[i] == '_' then '-' else name[i]
  {
  }

  /** The permitted tables are those the manifest lists, and none without a list. */
  lemma PermittedAsListed(plugin: Plugin, tables: set<string>)
    ensures "permitted_core_tables" in plugin.manifest && plugin.manifest["permitted_core_tables"] == Names(tables) ==> Permitted(plugin) == tables
    ensures "permitted_core_tables" !in plugin.manifest ==> Permitted(plugin) == {}
  {
  }

  /** The plugin a name is registered as: from its first valid answer. */
  predicate FirstAnswer(answers: Answers, name: string, first: nat, a: nat, plugin: Plugin) {
    && first <= a && answers(a, name).Some? && ValidManifest(answers(a, name).value)
    && plugin == Plugin(name, answers(a, name).value, ["sidecar", name], true)
    && forall b :: first <= b < a ==> answers(b, name).None? || !ValidManifest(answers(b, name).value)
  }

  lemma {:induction false} InRoundFound(names: seq<string>, attempt: nat, answers: Answers, plugin: Plugin)
    ensures plugin in RoundFound(names, attempt, answers)
       <==> plugin.id in names && Probe(plugin.id, answers(attempt, plugin.id)) == Some(plugin)
  {
    if |names| > 0 {
      InRoundFound(names[1..], attempt, answers, plugin);
    }
  }

  /** The plugin is what the first valid answer from round `attempt` on gives. */
  ghost predicate FoundFrom(answers: Answers, plugin: Plugin, attempt: nat)
    decreases RETRY_ATTEMPTS + 1 - attempt
  {
    attempt <= RETRY_ATTEMPTS
    && (Probe(plugin.id, answers(attempt, plugin.id)) == Some(plugin)
        || (Probe(plugin.id, answers(attempt, plugin.id)).None? && FoundFrom(answers, plugin, attempt + 1)))
  }

  lemma {:induction false} InRetryFound(names: seq<string>, attempt: nat, answers: Answers, plugin: Plugin)
    ensures plugin in RetryFound(names, attempt, answers) <==> plugin.id in names && FoundFrom(answers, plugin, attempt)
    decreases RETRY_ATTEMPTS + 1 - attempt, names
  {
    if attempt <= RETRY_ATTEMPTS && |names| > 0 {
      InRetryFound(RoundPending(names, attempt, answers), attempt + 1, answers, plugin);
      FoundOneRoundEarlier(names, attempt, answers, plugin);
    }
  }

  lemma FoundOneRoundEarlier(names: seq<string>, attempt: nat, answers: Answers, plugin: Plugin)
    requires attempt <= RETRY_ATTEMPTS && |names| > 0
    requires var pending := RoundPending(names, attempt, answers);
             plugin in RetryFound(pending, attempt + 1, answers) <==> plugin.id in pending && FoundFrom(answers, plugin, attempt + 1)
    ensures plugin in RetryFound(names, attempt, answers) <==> plugin.id in names && FoundFrom(answers, plugin, attempt)
  {
    InRoundFound(names, attempt, answers, plugin);
    PendingAfterRound(names, attempt, answers, plugin.id);
  }

  lemma {:induction false} FoundFromIff(answers: Answers, plugin: Plugin, attempt: nat)
    ensures FoundFrom(answers, plugin, attempt) <==> exists a: nat :: a <= 10 && FirstAnswer(answers, plugin.id, attempt, a, plugin)
    decreases RETRY_ATTEMPTS + 1 - attempt
  {
    if attempt <= RETRY_ATTEMPTS {
      FoundFromIff(answers, plugin, attempt + 1);
      FirstOrLater(answers, plugin, attempt, attempt + 1);
    }
  }

  lemma FirstOrLater(answers: Answers, plugin: Plugin, attempt: nat, later: nat)
    requires attempt <= 10 && later == attempt + 1
    ensures (exists a: nat :: a <= 10 && FirstAnswer(answers, plugin.id, attempt, a, plugin))
       <==> Probe(plugin.id, answers(attempt, plugin.id)) == Some(plugin)
            || (Probe(plugin.id, answers(attempt, plugin.id)).None?
                && exists a: nat :: a <= 10 && FirstAnswer(answers, plugin.id, later, a, plugin))
  {
    var id := plugin.id;
    if Probe(id, answers(attempt, id)) == Some(plugin) {
      assert FirstAnswer(answers, id, attempt, attempt, plugin);
    }
    if a: nat :| a <= 10 && FirstAnswer(answers, id, attempt, a, plugin) && a > attempt {
      assert FirstAnswer(answers, id, later, a, plugin);
    }
    if Probe(id, answers(attempt, id)).None? {
      if a: nat :| a <= 10 && FirstAnswer(answers, id, later, a, plugin) {
        assert FirstAnswer(answers, id, attempt, a, plugin);
      }
    }
  }

  /** The retry thread registers exactly the pending names that answer within ten rounds, each as its first valid answer says. */
  lemma RegisteredIff(names: seq<string>, answers: Answers, plugin: Plugin)
    ensures plugin in RetryFound(names, 1, answers)
       <==> plugin.id in names && exists a: nat :: a <= 10 && FirstAnswer(answers, plugin.id, 1, a, plugin)
  {
    InRetryFound(names, 1, answers, plugin);
    FoundFromIff(answers, plugin, 1);
  }

  // ----- the loader ------------------------------------------------------------------------

  class PluginLoader {
    var discovered: seq<Plugin>
    var discoveryDone: bool
    var dirCache: map<string, Path>
    var permissions: map<string, set<string>>
    var loadErrors: map<string, string>

    ghost function State(): Registry
      reads this
    {
      Registry(discovered, dirCache, permissions)
    }

    constructor ()
      ensures !discoveryDone && State() == Discovered([]) && loadErrors == map[]
    {
      discovered, discoveryDone := [], false;
      dirCache, permissions, loadErrors := map[], map[], map[];
    }

    /** The first probe of every declared or neighbouring sidecar. */
    method DiscoverSidecarPlugins(names: seq<string>, answers: Answers) returns (found: seq<Plugin>, pending: seq<string>)
      ensures found == RoundFound(names, 0, answers) && pending == RoundPending(names, 0, answers)
    {
      found, pending := [], [];
      for i := 0 to |names|
        invariant found + RoundFound(names[i..], 0, answers) == RoundFound(names, 0, answers)
        invariant pending + RoundPending(names[i..], 0, answers) == RoundPending(names, 0, answers)
      {
        assert names[i..][1..] == names[i + 1..];
        match Probe(names[i], answers(0, names[i]))
        case Some(plugin) => found := found + [plugin];
        case None => pending := pending + [names[i]];
      }
    }

    /** The directory cache and the permissions, rebuilt from the list. */
    method IndexDiscovered()
      modifies this`dirCache, this`permissions
      ensures State() == Discovered(discovered)
    {
      dirCache := DirIndex(discovered);
      permissions := map[];
      for i := 0 to |discovered|
        invariant dirCache == DirIndex(discovered)
        invariant permissions == PermissionIndex(discovered[..i])
      {
        assert discovered[..i + 1][..i] == discovered[..i];
        var permitted := Permitted(discovered[i]);
        permissions := permissions[discovered[i].id := permitted];
        if Alias(discovered[i]).Some? {
          permissions := permissions[Alias(discovered[i]).value := permitted];
        }
      }
      assert discovered[..|discovered|] == discovered;
    }

    /** Scan, then first probes; `pending` is what the retry thread is started with. A second call changes nothing. */
    method Discover(candidates: seq<Candidate>, names: seq<string>, answers: Answers) returns (pending: seq<string>)
      modifies this`discovered, this`discoveryDone, this`dirCache, this`permissions
      ensures discoveryDone
      ensures State() == if old(discoveryDone) then old(State()) else Discovered(Scanned(candidates) + RoundFound(names, 0, answers))
      ensures pending == if old(discoveryDone) then [] else RoundPending(names, 0, answers)
    {
      if discoveryDone {
        return [];
      }
      discovered := [];
      for i := 0 to |candidates|
        invariant discovered == Scanned(candidates[..i])
      {
        assert candidates[..i + 1][..i] == candidates[..i];
        var id := Hyphenate(candidates[i].folder);
        if |id| > 0 && id[0] == '_' {
          assert false;  // the underscore has become a hyphen by now
          continue;
        }
        if candidates[i].manifest.Some? && ValidManifest(candidates[i].manifest.value) {
          discovered := discovered + [Plugin(id, candidates[i].manifest.value, candidates[i].dir, false)];
        }
      }
      assert candidates[..|candidates|] == candidates;
      var sidecars: seq<Plugin>;
      sidecars, pending := DiscoverSidecarPlugins(names, answers);
      discovered := discovered + sidecars;
      discoveryDone := true;
      IndexDiscovered();
    }

    /** The critical section of the retry thread. */
    method RegisterLate(plugin: Plugin)
      modifies this`discovered, this`dirCache, this`permissions
      ensures State() == AddLate(old(State()), plugin)
    {
      discovered := discovered + [plugin];
      dirCache := dirCache[plugin.id := plugin.dir];
      permissions := permissions[plugin.id := Permitted(plugin)];
    }

    /** One round of the retry thread, run without interruption. */
    method RetryRound(ghost base: seq<Plugin>, ghost late: seq<Plugin>, names: seq<string>, attempt: nat, answers: Answers)
      returns (stillPending: seq<string>)
      requires State() == AddAllLate(base, late)
      modifies this`discovered, this`dirCache, this`permissions
      ensures State() == AddAllLate(base, late + RoundFound(names, attempt, answers))
      ensures stillPending == RoundPending(names, attempt, answers)
    {
      stillPending := [];
      ghost var found: seq<Plugin> := [];
      assert names[..0] == [] && late + [] == late;
      for i := 0 to |names|
        invariant found == RoundFound(names[..i], attempt, answers)
        invariant stillPending == RoundPending(names[..i], attempt, answers)
        invariant State() == AddAllLate(base, late + found)
      {
        RoundOneMore(names, i, attempt, answers);
        match Probe(names[i], answers(attempt, names[i]))
        case Some(plugin) =>
          RegisterLate(plugin);
          AddOneLate(base, late, found, plugin);
          found := found + [plugin];
        case None =>
          stillPending := stillPending + [names[i]];
      }
      assert names[..|names|] == names;
    }

    /** The whole retry thread, run without interruption. */
    method RetrySidecarPlugins(ghost base: seq<Plugin>, names: seq<string>, answers: Answers) returns (remaining: seq<string>)
      requires State() == Discovered(base)
      modifies this`discovered, this`dirCache, this`permissions
      ensures State() == AddAllLate(base, RetryFound(names, 1, answers))
      ensures remaining == RetryPending(names, 1, answers)
    {
      remaining := names;
      ghost var late: seq<Plugin> := [];
      var attempt := 1;
      ghost var found, left := RetryFound(names, attempt, answers), RetryPending(names, attempt, answers);
      assert late + found == found;
      while attempt <= RETRY_ATTEMPTS && |remaining| > 0
        invariant 1 <= attempt <= RETRY_ATTEMPTS + 1
        invariant State() == AddAllLate(base, late)
        invariant late + RetryFound(remaining, attempt, answers) == found
        invariant RetryPending(remaining, attempt, answers) == left
      {
        RetryOneRound(late, remaining, attempt, answers);
        ghost var round := RoundFound(remaining, attempt, answers);
        remaining := RetryRound(base, late, remaining, attempt, answers);
        late := late + round;
        attempt := attempt + 1;
      }
      assert late + [] == late;
    }

    method GetPluginDir(id: string) returns (dir: Option<Path>)
      requires dirCache == DirIndex(discovered)
      ensures (forall i :: 0 <= i < |discovered| ==> discovered[i].id != id) ==> dir == None
      ensures forall i: nat :: LastWith(discovered, i, id) ==> dir == Some(discovered[i].dir)
    {
      DirIndexIsLastWins(discovered, id);
      dir := if id in dirCache then Some(dirCache[id]) else None;
    }

    method GetPermittedCoreTables(ghost base: seq<Plugin>, ghost late: seq<Plugin>, id: string) returns (tables: set<string>)
      requires State() == AddAllLate(base, late)
      ensures forall i: nat :: LastFiler(|base|, base + late, i, id) ==> tables == Permitted((base + late)[i])
      ensures (forall i: nat :: i < |base + late| ==> !Files(|base|, base + late, i, id)) ==> tables == {}
    {
      PermissionsAreLastWins(base, late, id);
      tables := if id in permissions then permissions[id] else {};
    }

    /**
     * The list and the errors are copied in one critical section; the directory for entry `i` is looked up in
     * another one, when the cache holds `dirsAt(i)`.
     */
    method GetRegistry(dirsAt: nat -> map<string, Path>, sources: map<Path, Field>) returns (entries: seq<Manifest>)
      ensures |entries| == |discovered|
      ensures forall i :: 0 <= i < |entries| ==>
                entries[i] == AdminEntry(discovered[i], loadErrors, IsDynamic(dirsAt(i), discovered[i].id),
                                         if discovered[i].dir in sources then Some(sources[discovered[i].dir]) else None)
      ensures forall i :: 0 <= i < |entries| ==> IsAdminEntry(entries[i], discovered[i], loadErrors, dirsAt(i), sources)
    {
      var copied, errors := discovered, loadErrors;
      entries := [];
      for i := 0 to |copied|
        invariant |entries| == i
        invariant forall k :: 0 <= k < i ==>
                    entries[k] == AdminEntry(copied[k], errors, IsDynamic(dirsAt(k), copied[k].id),
                                             if copied[k].dir in sources then Some(sources[copied[k].dir]) else None)
      {
        var plugin := copied[i];
        var entry := plugin.manifest;
        if plugin.id in errors {
          entry := entry["load_error" := Text(errors[plugin.id])];
        }
        if plugin.sidecar {
          entry := entry["is_sidecar" := Flag(true)];
        } else if IsDynamic(dirsAt(i), plugin.id) {
          entry := entry["is_external" := Flag(true)];
          if plugin.dir in sources {
            entry := entry["git_source" := sources[plugin.dir]];
          }
        }
        entries := entries + [entry];
      }
      forall i | 0 <= i < |entries| ensures IsAdminEntry(entries[i], discovered[i], loadErrors, dirsAt(i), sources) {
        AdminEntryFields(discovered[i], loadErrors, dirsAt(i), sources);
      }
    }

    /** Copies and looks up like the admin listing. */
    method GetPublicRegistry(dirsAt: nat -> map<string, Path>) returns (entries: seq<Manifest>)
      ensures |entries| == |discovered|
      ensures forall i :: 0 <= i < |entries| ==>
                entries[i] == PublicEntry(discovered[i], loadErrors, IsDynamic(dirsAt(i), discovered[i].id))
                && entries[i].Keys !! SENSITIVE_FIELDS
      ensures forall i :: 0 <= i < |entries| ==> IsPublicEntry(entries[i], discovered[i], loadErrors, dirsAt(i))
    {
      var copied, errors := discovered, loadErrors;
      entries := [];
      for i := 0 to |copied|
        invariant |entries| == i
        invariant forall k :: 0 <= k < i ==>
                    entries[k] == PublicEntry(copied[k], errors, IsDynamic(dirsAt(k), copied[k].id))
      {
        var plugin := copied[i];
        var entry := plugin.manifest - SENSITIVE_FIELDS;
        entry := entry["has_load_error" := Flag(plugin.id in errors)];
        if plugin.sidecar {
          entry := entry["is_sidecar" := Flag(true)];
        } else if IsDynamic(dirsAt(i), plugin.id) {
          entry := entry["is_external" := Flag(true)];
        }
        entries := entries + [entry];
      }
      forall i | 0 <= i < |entries| ensures entries[i].Keys !! SENSITIVE_FIELDS {
        PublicIsAdminStripped(discovered[i], loadErrors, IsDynamic(dirsAt(i), discovered[i].id), None);
      }
      forall i | 0 <= i < |entries| ensures IsPublicEntry(entries[i], discovered[i], loadErrors, dirsAt(i)) {
        PublicEntryFields(discovered[i], loadErrors, dirsAt(i));
      }
    }
  }
}
