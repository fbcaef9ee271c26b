/** pcs_settings: what is loaded from JSON values, what is saved, and the fixed point between the two. */
module Config {
  import opened Sequences
  import opened Ordering
  import opened Permissions

  const CURRENT_FORMAT := 2
  const ADMIN_GROUP := "haclient"

  datatype Json =
    | Null
    | Bool(value: bool)
    | Int(int)
    | Real(real)
    | Str(text: string)
    | Arr(items: seq<Json>)
    | Obj(fields: map<string, Json>)

  datatype CfgText = Missing | Blank | Unparsable | Parsed(json: Json)

  datatype Cluster = Cluster(name: Json, nodes: seq<string>)

  /** `entities` is the list given to `PermissionsSet`. */
  datatype Settings = Settings(formatVersion: int, dataVersion: Json, clusters: seq<Cluster>, entities: seq<Entity>)

  /** `Raised`: an exception leaves the constructor. `Untyped`: Ruby goes on with types this model does not have. */
  datatype Result<+T> = Loaded(value: T) | Raised | Untyped

  function Get(json: Json, key: string): Json {
    if json.Obj? && key in json.fields then json.fields[key] else Null
  }

  predicate Truthy(json: Json) {
    json != Null && json != Bool(false)
  }

  /** Ruby's `a || b`. */
  function Or(a: Json, b: Json): Json {
    if Truthy(a) then a else b
  }

  // ----- loading -------------------------------------------------------------

  function StringsOf(items: seq<Json>): seq<string> {
    if items == [] then []
    else (if items[0].Str? then [items[0].text] else []) + StringsOf(items[1..])
  }

  /** `Cluster.new(c["name"], c["nodes"])`; other than arrays, only hashes have `each`, and yield no strings. */
  function LoadCluster(c: Json): Result<Cluster> {
    if !c.Obj? then Raised
    else match Get(c, "nodes")
      case Arr(items) => Loaded(Cluster(Get(c, "name"), UniqSort(StringsOf(items))))
      case Obj(_) => Loaded(Cluster(Get(c, "name"), []))
      case _ => Raised
  }

  function LoadEntity(perm: Json): Result<Entity> {
    var (kind, name, allow) := (Get(perm, "type"), Get(perm, "name"), Get(perm, "allow"));
    if !perm.Obj? then Raised
    else if !allow.Arr? && !allow.Obj? then Raised
    else if !kind.Str? || !name.Str? || !allow.Arr? || exists i | 0 <= i < |allow.items| :: !allow.items[i].Str? then
      Untyped
    else Loaded(Entity(kind.text, name.text, Uniq(StringsOf(allow.items))))
  }

  function LoadEach<T>(items: seq<Json>, load: Json -> Result<T>): Result<seq<T>> {
    if items == [] then Loaded([])
    else match load(items[0])
      case Raised => Raised
      case Untyped => Untyped
      case Loaded(x) =>
        match LoadEach(items[1..], load)
        case Raised => Raised
        case Untyped => Untyped
        case Loaded(xs) => Loaded([x] + xs)
  }

  /** `each` over a JSON value, with a block that subscripts its argument by name. */
  function LoadAll<T>(json: Json, load: Json -> Result<T>): Result<seq<T>> {
    match json
    case Arr(items) => LoadEach(items, load)
    case Obj(fields) => if fields == map[] then Loaded([]) else Raised
    case _ => Raised
  }

  function DefaultPermissions(): Json {
    Arr([Obj(map["type" := Str(TYPE_GROUP), "name" := Str(ADMIN_GROUP),
                 "allow" := Arr([Str(READ), Str(WRITE), Str(GRANT)])])])
  }

  /** What the main parsing finds: format and data version, clusters and permissions. */
  datatype Input = Input(formatVersion: int, dataVersion: Json, clusters: Json, permissions: Json)

  function Nothing(formatVersion: int): Input {
    Input(formatVersion, Int(0), Arr([]), Obj(map[]))
  }

  function ParseInput(cfg: CfgText): Input {
    if !cfg.Parsed? then Nothing(0)
    else if cfg.json.Arr? then
      Input(1, Int(0), cfg.json, Obj(map["local_cluster" := DefaultPermissions()]))
    else match Get(cfg.json, "format_version")
      case Int(v) =>
        if v >= 2 then
          Input(v, Or(Get(cfg.json, "data_version"), Int(0)), Or(Get(cfg.json, "clusters"), Arr([])),
                Or(Get(cfg.json, "permissions"), Obj(map[])))
        else if v == 1 then
          Input(1, Int(0), cfg.json, Obj(map["local_cluster" := DefaultPermissions()]))
        else Nothing(v)
      case _ => Nothing(0)
  }

  function LoadPermissions(permissions: Json): Result<seq<Entity>> {
    if !permissions.Obj? then Raised
    else if "local_cluster" !in permissions.fields then Loaded([])
    else LoadAll(permissions.fields["local_cluster"], LoadEntity)
  }

  function DefaultEntities(): seq<Entity> {
    [Entity(TYPE_GROUP, ADMIN_GROUP, [READ, WRITE, GRANT])]
  }

  /** `PCSConfig#initialize`. */
  function Load(cfg: CfgText): Result<Settings> {
    if cfg.Missing? then Loaded(Settings(CURRENT_FORMAT, Int(0), [], DefaultEntities()))
    else if cfg.Blank? then Loaded(Settings(CURRENT_FORMAT, Int(0), [], []))
    else
      var input := ParseInput(cfg);
      match LoadAll(input.clusters, LoadCluster)
      case Raised => Raised
      case Untyped => Untyped
      case Loaded(clusters) =>
        match LoadPermissions(input.permissions)
        case Raised => Raised
        case Untyped => Untyped
        case Loaded(entities) => Loaded(Settings(input.formatVersion, input.dataVersion, clusters, entities))
  }

  // ----- saving --------------------------------------------------------------

  function Texts(strings: seq<string>): Json {
    Arr(seq(|strings|, i requires 0 <= i < |strings| => Str(strings[i])))
  }

  function SaveCluster(c: Cluster): Json {
    Obj(map["name" := c.name, "nodes" := Texts(UniqSort(c.nodes))])
  }

  function SaveEntity(e: Entity): Json {
    Obj(map["allow" := Texts(e.allow), "name" := Str(e.name), "type" := Str(e.kind)])
  }

  function SaveEach<T>(xs: seq<T>, save: T -> Json): (r: seq<Json>)
    ensures |r| == |xs| && forall i | 0 <= i < |xs| :: r[i] == save(xs[i])
  {
    seq(|xs|, i requires 0 <= i < |xs| => save(xs[i]))
  }

  /** `PCSConfig#text`, before it is written as JSON text. */
  function Save(s: Settings): Json {
    Obj(map["clusters" := Arr(SaveEach(s.clusters, SaveCluster)), "data_version" := s.dataVersion,
            "format_version" := Int(CURRENT_FORMAT),
            "permissions" := Obj(map["local_cluster" := Arr(SaveEach(ToHash(s.entities), SaveEntity))])])
  }

  // ----- what is loaded, field by field --------------------------------------

  /** With no file, members of the admin group may do all but what needs full access; with an empty one, nobody may. */
  lemma NoFileMeans(username: string, groups: seq<string>, action: string)
    ensures Load(Missing).Loaded? && Load(Missing).value.(entities := []) == Settings(2, Int(0), [], [])
    ensures HasAccess(Load(Missing).value.entities, username, groups, action) <==>
      username == "hacluster" || ("haclient" in groups && action in {"read", "write", "grant"})
    ensures Load(Blank) == Loaded(Settings(2, Int(0), [], []))
  {
    var entities := Load(Missing).value.entities;
    assert entities == [Entity("group", "haclient", ["read", "write", "grant"])];
    assert entities[0] in entities;
  }

  /** A cluster is a hash whose nodes can be enumerated; its name may be any value, and its nodes are sorted. */
  lemma ClusterMeans(c: Json)
    ensures LoadCluster(c) == Raised <==>
      !(c.Obj? && "nodes" in c.fields && (c.fields["nodes"].Arr? || c.fields["nodes"].Obj?))
    ensures LoadCluster(c).Loaded? <==> LoadCluster(c) != Raised
    ensures LoadCluster(c).Loaded? ==>
      var (cluster, nodes) := (LoadCluster(c).value, c.fields["nodes"]);
      && cluster.name == (if "name" in c.fields then c.fields["name"] else Null)
      && (forall n :: n in cluster.nodes <==> nodes.Arr? && Str(n) in nodes.items)
      && forall i, j | 0 <= i < j < |cluster.nodes| :: Before(cluster.nodes[i], cluster.nodes[j])
  {
    if LoadCluster(c).Loaded? && c.fields["nodes"].Arr? {
      var strings := StringsOf(c.fields["nodes"].items);
      forall n ensures n in strings <==> Str(n) in c.fields["nodes"].items {
        StringsAre(c.fields["nodes"].items, n);
      }
      UniqSortSorts(strings);
      forall i, j | 0 <= i < j < |UniqSort(strings)| ensures Before(UniqSort(strings)[i], UniqSort(strings)[j]) {
        UniqSortIsOrdered(strings, i, j);
      }
    }
  }

  lemma {:induction false} StringsAre(items: seq<Json>, n: string)
    ensures n in StringsOf(items) <==> Str(n) in items
  {
    if items != [] {
      assert items == [items[0]] + items[1..];
      StringsAre(items[1..], n);
    }
  }

  /** An entry that is made of strings is loaded with them; each permission is kept once. */
  lemma EntityMeans(perm: Json, kind: string, name: string, allow: seq<Json>)
    requires perm.Obj? && forall x <- allow :: x.Str?
    requires "type" in perm.fields && "name" in perm.fields && "allow" in perm.fields
    requires perm.fields["type"] == Str(kind) && perm.fields["name"] == Str(name) && perm.fields["allow"] == Arr(allow)
    ensures LoadEntity(perm).Loaded?
    ensures var e := LoadEntity(perm).value;
      e.kind == kind && e.name == name && NoRepeats(e.allow) && forall p :: p in e.allow <==> Str(p) in allow
  {
    UniqIsUniq(StringsOf(allow));
    assert forall i | 0 <= i < |allow| :: allow[i] in allow;
    forall p ensures p in Uniq(StringsOf(allow)) <==> Str(p) in allow {
      StringsAre(allow, p);
    }
  }

  /** A list is loaded element by element, in order, unless one of them is not loaded. */
  lemma {:induction false} LoadEachMeans<T>(items: seq<Json>, load: Json -> Result<T>)
    ensures LoadEach(items, load).Loaded? <==> forall x <- items :: load(x).Loaded?
    ensures LoadEach(items, load).Loaded? ==>
      var r := LoadEach(items, load).value;
      |r| == |items| && forall i | 0 <= i < |items| :: load(items[i]) == Loaded(r[i])
  {
    if items != [] {
      assert items == [items[0]] + items[1..];
      LoadEachMeans(items[1..], load);
    }
  }

  /** Permissions are those listed for the local cluster; none without a list, and an exception without a hash. */
  lemma PermissionsMean(permissions: Json)
    ensures !permissions.Obj? ==> LoadPermissions(permissions) == Raised
    ensures permissions.Obj? && "local_cluster" !in permissions.fields ==> LoadPermissions(permissions) == Loaded([])
    ensures permissions.Obj? && "local_cluster" in permissions.fields ==>
      match permissions.fields["local_cluster"]
      case Arr(items) => LoadPermissions(permissions) == LoadEach(items, LoadEntity)
      case Obj(fields) => LoadPermissions(permissions) == if fields == map[] then Loaded([]) else Raised
      case _ => LoadPermissions(permissions) == Raised
  {
  }

  /** Where the values of a file of the current format, or a newer one, come from. */
  lemma CurrentFormatMeans(fields: map<string, Json>, v: int)
    requires "format_version" in fields && fields["format_version"] == Int(v) && v >= 2
    ensures ParseInput(Parsed(Obj(fields))) ==
      Input(v, Given(fields, "data_version", Int(0)), Given(fields, "clusters", Arr([])),
            Given(fields, "permissions", Obj(map[])))
  {
  }

  /** The value of a key, unless it is missing, null or false. */
  function Given(fields: map<string, Json>, key: string, default: Json): Json {
    if key in fields && fields[key] != Null && fields[key] != Bool(false) then fields[key] else default
  }

  /** In the oldest format the file is the list of clusters, and admins have the access they have with no file. */
  lemma FirstFormatMeans(clusters: seq<Json>)
    ensures var input := ParseInput(Parsed(Arr(clusters)));
      && input.formatVersion == 1 && input.dataVersion == Int(0) && input.clusters == Arr(clusters)
      && LoadPermissions(input.permissions) == Loaded(Load(Missing).value.entities)
  {
    var perm := Obj(map["type" := Str("group"), "name" := Str("haclient"),
                        "allow" := Arr([Str("read"), Str("write"), Str("grant")])]);
    var permissions := ParseInput(Parsed(Arr(clusters))).permissions;
    assert permissions == Obj(map["local_cluster" := Arr([perm])]);
    AdminEntity(perm);
    var admins := Entity("group", "haclient", ["read", "write", "grant"]);
    assert LoadEach([perm][1..], LoadEntity) == Loaded([]);
    LoadEachCons([perm], LoadEntity, admins, []);
    assert [admins] + [] == [admins];
  }

  lemma AdminEntity(perm: Json)
    requires perm == Obj(map["type" := Str("group"), "name" := Str("haclient"),
                             "allow" := Arr([Str("read"), Str("write"), Str("grant")])])
    ensures LoadEntity(perm) == Loaded(Entity("group", "haclient", ["read", "write", "grant"]))
  {
    var strings := ["read", "write", "grant"];
    StringsOfTexts(strings);
    assert Texts(strings) == Arr([Str("read"), Str("write"), Str("grant")]);
    UniqOfNoRepeats(strings);
  }

  /** Any other text gives no clusters, and nobody but the superuser access. */
  lemma OtherTextMeans(cfg: CfgText)
    requires cfg.Unparsable? || (cfg.Parsed? && !cfg.json.Arr? &&
      !(cfg.json.Obj? && "format_version" in cfg.json.fields && cfg.json.fields["format_version"].Int?))
    ensures Load(cfg) == Loaded(Settings(0, Int(0), [], []))
  {
  }

  /** The four keys of a saved file, those of its clusters and those of its permissions. */
  lemma SavedMeans(s: Settings)
    ensures Save(s).Obj? && Save(s).fields.Keys == {"clusters", "data_version", "format_version", "permissions"}
    ensures Save(s).fields["format_version"] == Int(2) && Save(s).fields["data_version"] == s.dataVersion
    ensures var clusters := Save(s).fields["clusters"];
      clusters.Arr? && |clusters.items| == |s.clusters| &&
      forall i | 0 <= i < |s.clusters| ::
        clusters.items[i] == Obj(map["name" := s.clusters[i].name, "nodes" := Texts(UniqSort(s.clusters[i].nodes))])
    ensures var (permissions, hash) := (Save(s).fields["permissions"], ToHash(s.entities));
      permissions.Obj? && permissions.fields.Keys == {"local_cluster"} && permissions.fields["local_cluster"].Arr? &&
      |permissions.fields["local_cluster"].items| == |hash| &&
      forall i | 0 <= i < |hash| :: permissions.fields["local_cluster"].items[i] ==
        Obj(map["type" := Str(hash[i].kind), "name" := Str(hash[i].name), "allow" := Texts(hash[i].allow)])
  {
    assert Save(s).fields["clusters"] == Arr(SaveEach(s.clusters, SaveCluster));
    assert Save(s).fields["permissions"].fields["local_cluster"] == Arr(SaveEach(ToHash(s.entities), SaveEntity));
    forall e: Entity { SavedEntity(e); }
    forall c: Cluster { SavedCluster(c); }
  }

  lemma SavedCluster(c: Cluster)
    ensures SaveCluster(c) == Obj(map["name" := c.name, "nodes" := Texts(UniqSort(c.nodes))])
  {
  }

  lemma SavedEntity(e: Entity)
    ensures SaveEntity(e) == Obj(map["type" := Str(e.kind), "name" := Str(e.name), "allow" := Texts(e.allow)])
  {
    assert SaveEntity(e).fields == map["type" := Str(e.kind), "name" := Str(e.name), "allow" := Texts(e.allow)];
  }

  // ----- the fixed point -----------------------------------------------------

  /** What loading and updating keep: node lists in order, a data version that `||` lets through. */
  ghost predicate WfSettings(s: Settings) {
    && Truthy(s.dataVersion)
    && forall i | 0 <= i < |s.clusters| :: UniqSort(s.clusters[i].nodes) == s.clusters[i].nodes
  }

  lemma {:induction false} LoadEachCluster(items: seq<Json>)
    requires LoadEach(items, LoadCluster).Loaded?
    ensures var cs := LoadEach(items, LoadCluster).value;
      forall i | 0 <= i < |cs| :: UniqSort(cs[i].nodes) == cs[i].nodes
  {
    if items != [] {
      LoadEachCluster(items[1..]);
      match Get(items[0], "nodes")
      case Arr(nodes) => UniqSortTwice(StringsOf(nodes));
      case _ =>
    }
  }

  lemma LoadedIsWf(cfg: CfgText)
    requires Load(cfg).Loaded?
    ensures WfSettings(Load(cfg).value)
  {
    var input := ParseInput(cfg);
    if input.clusters.Arr? && LoadEach(input.clusters.items, LoadCluster).Loaded? {
      LoadEachCluster(input.clusters.items);
    }
  }

  lemma {:induction false} StringsOfTexts(strings: seq<string>)
    ensures StringsOf(Texts(strings).items) == strings
  {
    if strings != [] {
      assert Texts(strings).items[1..] == Texts(strings[1..]).items;
      StringsOfTexts(strings[1..]);
    }
  }

  lemma LoadEachCons<T>(items: seq<Json>, load: Json -> Result<T>, x: T, xs: seq<T>)
    requires items != [] && load(items[0]) == Loaded(x) && LoadEach(items[1..], load) == Loaded(xs)
    ensures LoadEach(items, load) == Loaded([x] + xs)
  {
  }

  lemma ReloadCluster(c: Cluster)
    requires UniqSort(c.nodes) == c.nodes
    ensures LoadCluster(SaveCluster(c)) == Loaded(c)
  {
    StringsOfTexts(c.nodes);
    var cluster := SaveCluster(c);
    assert Get(cluster, "name") == c.name && Get(cluster, "nodes") == Texts(c.nodes);
  }

  lemma SaveEachCons<T>(xs: seq<T>, save: T -> Json)
    requires xs != []
    ensures var saved := SaveEach(xs, save);
      saved != [] && saved[0] == save(xs[0]) && saved[1..] == SaveEach(xs[1..], save)
  {
  }

  lemma {:induction false} ReloadClusters(clusters: seq<Cluster>)
    requires forall i | 0 <= i < |clusters| :: UniqSort(clusters[i].nodes) == clusters[i].nodes
    ensures LoadEach(SaveEach(clusters, SaveCluster), LoadCluster) == Loaded(clusters)
  {
    if clusters != [] {
      var saved := SaveEach(clusters, SaveCluster);
      SaveEachCons(clusters, SaveCluster);
      ReloadCluster(clusters[0]);
      ReloadClusters(clusters[1..]);
      LoadEachCons(saved, LoadCluster, clusters[0], clusters[1..]);
      assert clusters == [clusters[0]] + clusters[1..];
    }
  }

  lemma ReloadEntity(e: Entity)
    requires NoRepeats(e.allow)
    ensures LoadEntity(SaveEntity(e)) == Loaded(e)
  {
    StringsOfTexts(e.allow);
    UniqOfNoRepeats(e.allow);
    var perm := SaveEntity(e);
    assert Get(perm, "type") == Str(e.kind) && Get(perm, "name") == Str(e.name) && Get(perm, "allow") == Texts(e.allow);
  }

  lemma {:induction false} ReloadEntities(entities: seq<Entity>)
    requires forall i | 0 <= i < |entities| :: NoRepeats(entities[i].allow)
    ensures LoadEach(SaveEach(entities, SaveEntity), LoadEntity) == Loaded(entities)
  {
    if entities != [] {
      var saved := SaveEach(entities, SaveEntity);
      SaveEachCons(entities, SaveEntity);
      ReloadEntity(entities[0]);
      ReloadEntities(entities[1..]);
      LoadEachCons(saved, LoadEntity, entities[0], entities[1..]);
      assert entities == [entities[0]] + entities[1..];
    }
  }

  lemma HashHasNoRepeats(entities: seq<Entity>)
    ensures forall i | 0 <= i < |ToHash(entities)| :: NoRepeats(ToHash(entities)[i].allow)
  {
    var h := ToHash(entities);
    HashSpec(entities);
    forall i | 0 <= i < |h| ensures NoRepeats(h[i].allow) {
      assert h[i] in h;
      UniqSortSorts(Merged(entities, h[i].kind, h[i].name));
    }
  }

  lemma ReloadInput(s: Settings)
    requires Truthy(s.dataVersion)
    ensures ParseInput(Parsed(Save(s))) ==
      Input(CURRENT_FORMAT, s.dataVersion, Arr(SaveEach(s.clusters, SaveCluster)),
            Obj(map["local_cluster" := Arr(SaveEach(ToHash(s.entities), SaveEntity))]))
  {
    var json := Save(s);
    assert Get(json, "format_version") == Int(CURRENT_FORMAT);
    assert Get(json, "clusters") == Arr(SaveEach(s.clusters, SaveCluster));
    assert Get(json, "data_version") == s.dataVersion;
    assert Get(json, "permissions") == Obj(map["local_cluster" := Arr(SaveEach(ToHash(s.entities), SaveEntity))]);
  }

  /** What loading the saved value gives. */
  lemma Reload(s: Settings)
    requires WfSettings(s)
    ensures Load(Parsed(Save(s))) == Loaded(Settings(CURRENT_FORMAT, s.dataVersion, s.clusters, ToHash(s.entities)))
  {
    ReloadInput(s);
    ReloadClusters(s.clusters);
    HashHasNoRepeats(s.entities);
    ReloadEntities(ToHash(s.entities));
  }

  /**
   * Loading what was saved gives the same clusters, data version and permission answers, and saving again gives the
   * same value.
   */
  lemma SettingsFixedPoint(s: Settings, username: string, groups: seq<string>, action: string)
    requires WfSettings(s)
    ensures var again := Load(Parsed(Save(s)));
      && again.Loaded?
      && again.value.clusters == s.clusters && again.value.dataVersion == s.dataVersion
      && (MergedAllows(again.value.entities, username, groups, action) <==>
          MergedAllows(s.entities, username, groups, action))
      && Save(again.value) == Save(s)
  {
    Reload(s);
    HashTwice(s.entities);
    SameGrantsAnswer(ToHash(s.entities), s.entities, username, groups, action);
  }

  lemma SameGrantsAnswer(a: seq<Entity>, b: seq<Entity>, username: string, groups: seq<string>, action: string)
    requires SameGrants(a, b)
    ensures MergedAllows(a, username, groups, action) <==> MergedAllows(b, username, groups, action)
  {
    forall k, n ensures EntityAllows(Merged(a, k, n), action) <==> EntityAllows(Merged(b, k, n), action) {
      forall p ensures p in Merged(a, k, n) <==> p in Merged(b, k, n) {
        MergedGrants(a, k, n, p);
        MergedGrants(b, k, n, p);
      }
    }
  }

  /** ... in particular for everything that was ever loaded. */
  lemma LoadedFixedPoint(cfg: CfgText, username: string, groups: seq<string>, action: string)
    requires Load(cfg).Loaded?
    ensures var s := Load(cfg).value; var again := Load(Parsed(Save(s)));
      && again.Loaded?
      && again.value.clusters == s.clusters && again.value.dataVersion == s.dataVersion
      && (MergedAllows(again.value.entities, username, groups, action) <==>
          MergedAllows(s.entities, username, groups, action))
      && Save(again.value) == Save(s)
  {
    LoadedIsWf(cfg);
    SettingsFixedPoint(Load(cfg).value, username, groups, action);
  }
}
