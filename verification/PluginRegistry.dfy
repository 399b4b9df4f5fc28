/** The plugin registry: plugins kept by ConfigMap, served by plugin name (pkg/plugins/registry.go). */
module PluginRegistry {
  import opened Wrappers

  const MANIFEST_FILE_NAME := "manifest.json"

  datatype Manifest = Manifest(name: string, entry: string, version: string)

  /** The content of a file, with what json.Unmarshal makes of it as a manifest, None if that fails. */
  datatype Content = Content(bytes: string, manifest: Option<Manifest>)

  datatype ConfigMap = ConfigMap(name: string, data: map<string, Content>, binaryData: map<string, Content>)

  datatype PluginEntry = PluginEntry(manifest: Manifest, files: map<string, Content>)

  datatype ParseResult =
    | Parsed(entry: PluginEntry) | MissingManifest | InvalidManifest | MissingName | MissingEntry | EntryNotFound

  /** What an informer hands to its handlers. */
  datatype Object = Plain(cm: ConfigMap) | Tombstone(last: Option<ConfigMap>) | Foreign

  function Lookup<V>(m: map<string, V>, name: string): Option<V> {
    if name in m then Some(m[name]) else None
  }

  function AsConfigMap(obj: Object): Option<ConfigMap> {
    match obj
    case Plain(cm) => Some(cm)
    case Tombstone(last) => last
    case Foreign => None
  }

  /** A file of a ConfigMap; where both maps have it, the binary one. */
  function FileIn(cm: ConfigMap, name: string): Option<Content> {
    if name in cm.binaryData then Some(cm.binaryData[name]) else if name in cm.data then Some(cm.data[name]) else None
  }

  /** A ConfigMap parses exactly if its manifest does, gives a name and an entry, and the entry is one of its files; the
      plugin then has that manifest, and the ConfigMap's files as they are. */
  function ParsePluginConfigMap(cm: ConfigMap): (r: ParseResult)
    ensures r.Parsed? <==>
              && FileIn(cm, "manifest.json").Some? && FileIn(cm, "manifest.json").value.manifest.Some?
              && var m := FileIn(cm, "manifest.json").value.manifest.value;
                 m.name != "" && m.entry != "" && FileIn(cm, m.entry).Some?
    ensures r.Parsed? ==> r.entry.manifest == FileIn(cm, "manifest.json").value.manifest.value && Servable(r.entry)
    ensures r.Parsed? ==> forall name :: Lookup(r.entry.files, name) == FileIn(cm, name)
  {
    var files := cm.data + cm.binaryData;
    if MANIFEST_FILE_NAME !in files then MissingManifest
    else if files[MANIFEST_FILE_NAME].manifest.None? then InvalidManifest
    else
      var manifest := files[MANIFEST_FILE_NAME].manifest.value;
      if manifest.name == "" then MissingName
      else if manifest.entry == "" then MissingEntry
      else if manifest.entry !in files then EntryNotFound
      else Parsed(PluginEntry(manifest, files))
  }

  predicate Servable(e: PluginEntry) {
    e.manifest.name != "" && e.manifest.entry in e.files
  }

  // ---------------------------------------------------------------- names in order

  /** The order of sort.Strings: on UTF-8, byte by byte is code point by code point. */
  predicate Before(a: string, b: string) {
    b != "" && (a == "" || a[0] < b[0] || (a[0] == b[0] && Before(a[1..], b[1..])))
  }

  ghost predicate DiffersFirstAt(a: string, b: string, k: nat) {
    k < |a| && k < |b| && a[..k] == b[..k] && a[k] != b[k]
  }

  lemma DiffersLater(a: string, b: string, k: nat)
    requires a != "" && b != "" && a[0] == b[0]
    ensures DiffersFirstAt(a, b, k + 1) <==> DiffersFirstAt(a[1..], b[1..], k)
    ensures !DiffersFirstAt(a, b, 0)
  {
    if k < |a| - 1 && k < |b| - 1 {
      assert a[..k + 1] == [a[0]] + a[1..][..k] && b[..k + 1] == [b[0]] + b[1..][..k];
      assert a[1..][..k] == a[..k + 1][1..] && b[1..][..k] == b[..k + 1][1..];
    }
  }

  /** That is: a name that begins the other, or has the smaller character where they first differ. */
  lemma {:induction false} BeforeIsLexicographic(a: string, b: string)
    ensures Before(a, b) <==> a < b || exists k: nat :: DiffersFirstAt(a, b, k) && a[k] < b[k]
  {
    if a != "" && b != "" && a[0] == b[0] {
      BeforeIsLexicographic(a[1..], b[1..]);
      TailsCompare(a, b);
    } else if a != "" && b != "" {
      assert DiffersFirstAt(a, b, 0);
    }
  }

  lemma TailsCompare(a: string, b: string)
    requires a != "" && b != "" && a[0] == b[0]
    ensures a < b <==> a[1..] < b[1..]
    ensures (exists k: nat :: DiffersFirstAt(a, b, k) && a[k] < b[k])
       <==> exists k: nat :: DiffersFirstAt(a[1..], b[1..], k) && a[1..][k] < b[1..][k]
  {
    assert a == [a[0]] + a[1..] && b == [b[0]] + b[1..];
    forall k: nat ensures DiffersFirstAt(a, b, k + 1) <==> DiffersFirstAt(a[1..], b[1..], k) {
      DiffersLater(a, b, k);
    }
    if k: nat :| DiffersFirstAt(a, b, k) && a[k] < b[k] {
      DiffersLater(a, b, 0);
      assert DiffersFirstAt(a[1..], b[1..], k - 1);
    }
    if k: nat :| DiffersFirstAt(a[1..], b[1..], k) && a[1..][k] < b[1..][k] {
      assert DiffersFirstAt(a, b, k + 1);
    }
  }

  lemma {:induction false} BeforeIsStrict(a: string, b: string)
    ensures !(Before(a, b) && Before(b, a)) && !Before(a, a)
    ensures a != b ==> Before(a, b) || Before(b, a)
  {
    if a != "" {
      BeforeIsStrict(a[1..], a[1..]);
      if b != "" && a[0] == b[0] {
        assert a == [a[0]] + a[1..] && b == [b[0]] + b[1..];
        BeforeIsStrict(a[1..], b[1..]);
      }
    }
  }

  lemma {:induction false} BeforeIsTransitive(a: string, b: string, c: string)
    requires Before(a, b) && Before(b, c)
    ensures Before(a, c)
  {
    if a != "" && a[0] == b[0] == c[0] {
      BeforeIsTransitive(a[1..], b[1..], c[1..]);
    }
  }

  ghost predicate Sorted(names: seq<string>) {
    forall i, j | 0 <= i < j < |names| :: Before(names[i], names[j])
  }

  /** There is only one way to sort a set of names, so every call that sorts sees the same order. */
  lemma {:induction false} SortedIsUnique(a: seq<string>, b: seq<string>)
    requires Sorted(a) && Sorted(b) && forall n :: n in a <==> n in b
    ensures a == b
  {
    NoneFromNone(a, b);
    NoneFromNone(b, a);
    if a != [] {
      assert a[0] in b && b[0] in a;
      FirstIsLeast(a, b[0]);
      FirstIsLeast(b, a[0]);
      BeforeIsStrict(a[0], b[0]);
      TailHasTheRest(a);
      TailHasTheRest(b);
      SortedIsUnique(a[1..], b[1..]);
    }
  }

  lemma NoneFromNone(a: seq<string>, b: seq<string>)
    requires forall n | n in a :: n in b
    ensures a != [] ==> b != []
  {
    assert a != [] ==> a[0] in b;
  }

  lemma FirstIsLeast(names: seq<string>, n: string)
    requires Sorted(names) && n in names
    ensures names[0] == n || Before(names[0], n)
  {
  }

  lemma TailHasTheRest(names: seq<string>)
    requires Sorted(names) && names != []
    ensures Sorted(names[1..])
    ensures forall n :: n in names[1..] <==> n in names && n != names[0]
  {
    BeforeIsStrict(names[0], names[0]);
    assert names == [names[0]] + names[1..];
    assert forall i | 0 < i < |names| :: names[i] == names[1..][i - 1] && names[i] != names[0];
  }

  function Inserted(names: seq<string>, n: string): (r: seq<string>)
    ensures forall m :: m in r <==> m in names || m == n
  {
    if names == [] then [n]
    else if Before(n, names[0]) then [n] + names
    else
      assert names == [names[0]] + names[1..];
      [names[0]] + Inserted(names[1..], n)
  }

  lemma {:induction false} InsertedIsSorted(names: seq<string>, n: string)
    requires Sorted(names) && n !in names
    ensures Sorted(Inserted(names, n))
  {
    if names == [] {
    } else if Before(n, names[0]) {
      forall i | 0 < i < |names| ensures Before(n, names[i]) { BeforeIsTransitive(n, names[0], names[i]); }
    } else {
      TailHasTheRest(names);
      InsertedIsSorted(names[1..], n);
      BeforeIsStrict(n, names[0]);
      var rest := Inserted(names[1..], n);
      assert forall m | m in rest :: Before(names[0], m) by {
        forall m | m in names[1..] ensures Before(names[0], m) { FirstIsLeast(names, m); }
      }
      assert forall i | 0 <= i < |rest| :: rest[i] in rest;
    }
  }

  // ---------------------------------------------------------------- who serves a name

  /** The ConfigMap that serves its plugin's name: of all that claim the name, the first in order. */
  ghost predicate Serves(plugins: map<string, PluginEntry>, cm: string) {
    && cm in plugins
    && forall d | d in plugins && d != cm && plugins[d].manifest.name == plugins[cm].manifest.name :: Before(cm, d)
  }

  lemma OneServer(plugins: map<string, PluginEntry>, a: string, b: string)
    requires Serves(plugins, a) && Serves(plugins, b) && plugins[a].manifest.name == plugins[b].manifest.name
    ensures a == b
  {
    BeforeIsStrict(a, b);
  }

  // ---------------------------------------------------------------- the past of a ConfigMap

  datatype Event = Upserted(cm: ConfigMap) | Removed(name: string)

  /** The last valid version of a ConfigMap since it was last deleted. */
  function Current(history: seq<Event>, name: string): Option<PluginEntry> {
    if history == [] then None
    else
      var last, before := history[|history| - 1], history[..|history| - 1];
      match last
      case Removed(n) => if n == name then None else Current(before, name)
      case Upserted(cm) =>
        if cm.name == name && ParsePluginConfigMap(cm).Parsed? then Some(ParsePluginConfigMap(cm).entry) else Current(before, name)
  }

  /** The event is an upsert of a valid version of this ConfigMap. */
  predicate Makes(e: Event, name: string) {
    e.Upserted? && e.cm.name == name && ParsePluginConfigMap(e.cm).Parsed?
  }

  /** Event i is one, and nothing since has replaced or removed what it made. */
  ghost predicate LastMadeAt(history: seq<Event>, name: string, i: nat) {
    && i < |history| && Makes(history[i], name)
    && forall j | i < j < |history| :: history[j] != Removed(name) && !Makes(history[j], name)
  }

  lemma LastMadeSnoc(history: seq<Event>, name: string, i: nat)
    requires history != [] && i < |history| - 1
    ensures var last := history[|history| - 1];
            LastMadeAt(history, name, i) <==>
              LastMadeAt(history[..|history| - 1], name, i) && last != Removed(name) && !Makes(last, name)
  {
    var before := history[..|history| - 1];
    assert forall j | 0 <= j < |before| :: before[j] == history[j];
  }

  /** What is current was made by the last upsert of a valid version, if no delete has come after it. */
  lemma {:induction false} CurrentIsLastMade(history: seq<Event>, name: string)
    ensures Current(history, name).Some? <==> exists i: nat :: LastMadeAt(history, name, i)
    ensures forall i: nat | LastMadeAt(history, name, i) :: Current(history, name) == Some(ParsePluginConfigMap(history[i].cm).entry)
  {
    if history != [] {
      var last, before := history[|history| - 1], history[..|history| - 1];
      CurrentIsLastMade(before, name);
      forall i: nat | i < |history| - 1
        ensures LastMadeAt(history, name, i) <==> LastMadeAt(before, name, i) && last != Removed(name) && !Makes(last, name)
      {
        LastMadeSnoc(history, name, i);
      }
      if Makes(last, name) {
        assert LastMadeAt(history, name, |history| - 1);
      }
    }
  }

  class Registry {
    var plugins: map<string, PluginEntry>

    ghost var history: seq<Event>

    /** Each ConfigMap's content is its last valid version since its last delete, and each can be served. */
    ghost predicate Valid()
      reads this
    {
      && (forall name :: Lookup(plugins, name) == Current(history, name))
      && (forall name | name in plugins :: Servable(plugins[name]))
    }

    constructor ()
      ensures Valid() && plugins == map[] && history == []
    {
      plugins, history := map[], [];
    }

    method HandleUpsert(obj: Object)
      requires Valid()
      modifies this
      ensures Valid()
      ensures history == old(history) + match obj
                                        case Plain(cm) => [Upserted(cm)]
                                        case Tombstone(Some(cm)) => [Upserted(cm)]
                                        case _ => []
    {
      var cm := AsConfigMap(obj);
      if cm.None? {
        return;
      }
      history := history + [Upserted(cm.value)];
      assert history[..|history| - 1] == old(history);
      var r := ParsePluginConfigMap(cm.value);
      if !r.Parsed? {
        return;
      }
      plugins := plugins[cm.value.name := r.entry];
    }

    method HandleDelete(obj: Object)
      requires Valid()
      modifies this
      ensures Valid()
      ensures history == old(history) + match obj
                                        case Plain(cm) => [Removed(cm.name)]
                                        case Tombstone(Some(cm)) => [Removed(cm.name)]
                                        case _ => []
    {
      var cm := AsConfigMap(obj);
      if cm.None? {
        return;
      }
      history := history + [Removed(cm.value.name)];
      assert history[..|history| - 1] == old(history);
      plugins := plugins - {cm.value.name};
    }

    method SortedConfigMapNames() returns (names: seq<string>)
      ensures Sorted(names) && forall n :: n in names <==> n in plugins
    {
      names := [];
      var rest := plugins.Keys;
      while rest != {}
        invariant rest <= plugins.Keys
        invariant Sorted(names) && forall n :: n in names <==> n in plugins && n !in rest
        decreases rest
      {
        var name :| name in rest;
        InsertedIsSorted(names, name);
        names := Inserted(names, name);
        rest := rest - {name};
      }
    }

    /** The manifests of the ConfigMaps that serve their plugin's name, in the order of their ConfigMaps' names. */
    method Index() returns (manifests: seq<Manifest>, ghost servers: seq<string>)
      requires Valid()
      ensures Sorted(servers) && forall cm :: cm in servers <==> Serves(plugins, cm)
      ensures |manifests| == |servers|
      ensures forall i | 0 <= i < |servers| :: servers[i] in plugins && manifests[i] == plugins[servers[i]].manifest
    {
      var names := SortedConfigMapNames();
      var seen: map<string, string> := map[];
      manifests, servers := [], [];
      for k := 0 to |names|
        invariant |manifests| == |servers|
        invariant forall i | 0 <= i < |servers| :: servers[i] in plugins && manifests[i] == plugins[servers[i]].manifest
        invariant Sorted(servers) && forall cm :: cm in servers <==> cm in names[..k] && Serves(plugins, cm)
        invariant forall p :: p in seen <==> exists i | 0 <= i < k :: plugins[names[i]].manifest.name == p
      {
        var cmName := names[k];
        var entry := plugins[cmName];
        ServesIffFirst(plugins, names, k);
        OneMoreName(names, k);
        if entry.manifest.name !in seen {
          SortedSnoc(names, k, servers);
          seen := seen[entry.manifest.name := cmName];
          manifests, servers := manifests + [entry.manifest], servers + [cmName];
        }
      }
      assert names[..|names|] == names;
    }

    /** The file of the ConfigMap that serves the plugin's name; None if there is no such file or no such plugin. */
    method File(pluginName: string, filename: string) returns (data: Option<Content>)
      requires Valid()
      ensures forall cm | Serves(plugins, cm) && plugins[cm].manifest.name == pluginName ::
                data == if filename in plugins[cm].files then Some(plugins[cm].files[filename]) else None
      ensures (forall cm | cm in plugins :: plugins[cm].manifest.name != pluginName) ==> data == None
    {
      var names := SortedConfigMapNames();
      for k := 0 to |names|
        invariant forall i | 0 <= i < k :: plugins[names[i]].manifest.name != pluginName
      {
        var entry := plugins[names[k]];
        if entry.manifest.name == pluginName {
          ServesIffFirst(plugins, names, k);
          assert Serves(plugins, names[k]);
          forall cm | Serves(plugins, cm) && plugins[cm].manifest.name == pluginName ensures cm == names[k] {
            OneServer(plugins, cm, names[k]);
          }
          return if filename in entry.files then Some(entry.files[filename]) else None;
        }
      }
      data := None;
      assert forall cm | cm in plugins :: cm in names;
    }
  }

  lemma ServesIffFirst(plugins: map<string, PluginEntry>, names: seq<string>, k: nat)
    requires Sorted(names) && (forall n :: n in names <==> n in plugins) && k < |names|
    ensures Serves(plugins, names[k]) <==> forall i | 0 <= i < k :: plugins[names[i]].manifest.name != plugins[names[k]].manifest.name
  {
    forall i | 0 <= i < k ensures names[i] != names[k] && !Before(names[k], names[i]) {
      BeforeIsStrict(names[i], names[k]);
    }
    assert forall d | d in plugins && d != names[k] :: Before(names[k], d) || exists i | 0 <= i < k :: names[i] == d;
  }

  lemma OneMoreName(names: seq<string>, k: nat)
    requires k < |names|
    ensures forall n :: n in names[..k + 1] <==> n in names[..k] || n == names[k]
  {
    assert names[..k + 1] == names[..k] + [names[k]];
  }

  lemma SortedSnoc(names: seq<string>, k: nat, chosen: seq<string>)
    requires Sorted(names) && k < |names| && Sorted(chosen) && forall n <- chosen :: n in names[..k]
    ensures Sorted(chosen + [names[k]])
  {
    forall i | 0 <= i < |chosen| ensures Before(chosen[i], names[k]) {
      assert chosen[i] in names[..k];
    }
  }

  // ---------------------------------------------------------------- index and file agree

  /** The least of a non-empty set of names. */
  lemma {:induction false} Least(names: set<string>) returns (least: string)
    requires names != {}
    ensures least in names && forall n | n in names && n != least :: Before(least, n)
    decreases names
  {
    var some :| some in names;
    if names == {some} {
      least := some;
    } else {
      var other := Least(names - {some});
      BeforeIsStrict(some, other);
      least := if Before(some, other) then some else other;
      forall n | n in names && n != least ensures Before(least, n) {
        if least == some && n != other { BeforeIsTransitive(some, other, n); }
      }
    }
  }

  /** Every claimed name has a server. */
  lemma SomeServer(plugins: map<string, PluginEntry>, cm: string) returns (server: string)
    requires cm in plugins
    ensures Serves(plugins, server) && plugins[server].manifest.name == plugins[cm].manifest.name
  {
    var claimants := set d | d in plugins && plugins[d].manifest.name == plugins[cm].manifest.name;
    assert cm in claimants;
    server := Least(claimants);
  }

  /** What a caller makes of the result of Index: no plugin name is listed twice, every claimed name is listed, and so is the
      name of whichever ConfigMap File serves. */
  lemma IndexListsEachNameOnce(plugins: map<string, PluginEntry>, manifests: seq<Manifest>, servers: seq<string>)
    requires Sorted(servers) && (forall cm :: cm in servers <==> Serves(plugins, cm)) && |manifests| == |servers|
    requires forall i | 0 <= i < |servers| :: servers[i] in plugins && manifests[i] == plugins[servers[i]].manifest
    ensures forall i, j | 0 <= i < j < |manifests| :: manifests[i].name != manifests[j].name
    ensures forall cm | cm in plugins :: exists i | 0 <= i < |manifests| :: manifests[i].name == plugins[cm].manifest.name
  {
    forall i, j | 0 <= i < j < |manifests| ensures manifests[i].name != manifests[j].name {
      BeforeIsStrict(servers[i], servers[j]);
      assert servers[i] in servers && servers[j] in servers;
      if manifests[i].name == manifests[j].name { OneServer(plugins, servers[i], servers[j]); }
    }
    forall cm | cm in plugins ensures exists i | 0 <= i < |manifests| :: manifests[i].name == plugins[cm].manifest.name {
      var server := SomeServer(plugins, cm);
      assert server in servers;
    }
  }

  /** A listed manifest, and the entry file its plugin is served with, come from the same ConfigMap. */
  ghost predicate ServedFrom(plugins: map<string, PluginEntry>, cm: string, m: Manifest, file: Option<Content>) {
    && Serves(plugins, cm)
    && m == plugins[cm].manifest
    && m.entry in plugins[cm].files && file == Some(plugins[cm].files[m.entry])
  }

  /** What Index lists, File serves: the entry file of every listed manifest is found, in the ConfigMap that Index kept. */
  method EntryFiles(r: Registry) returns (manifests: seq<Manifest>, files: seq<Option<Content>>, ghost servers: seq<string>)
    requires r.Valid()
    ensures |files| == |manifests| == |servers|
    ensures forall i | 0 <= i < |manifests| :: ServedFrom(r.plugins, servers[i], manifests[i], files[i])
  {
    manifests, servers := r.Index();
    files := [];
    for i := 0 to |manifests|
      invariant |files| == i
      invariant forall j | 0 <= j < i :: ServedFrom(r.plugins, servers[j], manifests[j], files[j])
    {
      assert servers[i] in servers;
      var file := r.File(manifests[i].name, manifests[i].entry);
      files := files + [file];
    }
  }
}
