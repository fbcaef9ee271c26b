/** `PCSConfig` objects: loading field by field, updating a cluster, saving. */
module PCSConfigObject {
  import opened Ordering
  import opened Permissions
  import opened Config

  /** Values already loaded, put in front of what is still to be loaded. */
  function LoadedBefore<T>(done: seq<T>, r: Result<seq<T>>): Result<seq<T>> {
    match r
    case Loaded(xs) => Loaded(done + xs)
    case Raised => Raised
    case Untyped => Untyped
  }

  lemma LoadNothingYet<T>(items: seq<Json>, load: Json -> Result<T>)
    ensures LoadEach(items, load) == LoadedBefore([], LoadEach(items[0..], load))
  {
    assert items[0..] == items;
    var r := LoadEach(items, load);
    if r.Loaded? {
      assert [] + r.value == r.value;
    }
  }

  lemma LoadStep<T>(done: seq<T>, items: seq<Json>, i: nat, load: Json -> Result<T>)
    requires i < |items|
    ensures LoadedBefore(done, LoadEach(items[i..], load)) ==
      match load(items[i])
      case Raised => Raised
      case Untyped => Untyped
      case Loaded(x) => LoadedBefore(done + [x], LoadEach(items[i + 1..], load))
  {
    assert items[i..][1..] == items[i + 1..];
    var later := LoadEach(items[i + 1..], load);
    if load(items[i]).Loaded? && later.Loaded? {
      assert done + ([load(items[i]).value] + later.value) == done + [load(items[i]).value] + later.value;
    }
  }

  /** The first cluster of that name gets the nodes; an empty node list removes every cluster of that name. */
  function Updated(clusters: seq<Cluster>, name: string, nodes: seq<string>): seq<Cluster> {
    if nodes == [] then Others(clusters, name)
    else if clusters == [] then []
    else if clusters[0].name == Str(name) then [Cluster(clusters[0].name, UniqSort(nodes))] + clusters[1..]
    else [clusters[0]] + Updated(clusters[1..], name, nodes)
  }

  function Others(clusters: seq<Cluster>, name: string): seq<Cluster> {
    if clusters == [] then []
    else (if clusters[0].name == Str(name) then [] else [clusters[0]]) + Others(clusters[1..], name)
  }

  lemma {:induction false} UpdatedAt(clusters: seq<Cluster>, i: nat, name: string, nodes: seq<string>)
    requires i < |clusters| && clusters[i].name == Str(name) && nodes != []
    requires forall j | 0 <= j < i :: clusters[j].name != Str(name)
    ensures Updated(clusters, name, nodes) == clusters[i := Cluster(clusters[i].name, UniqSort(nodes))]
  {
    if i > 0 {
      UpdatedAt(clusters[1..], i - 1, name, nodes);
    }
  }

  lemma {:induction false} UpdatedNowhere(clusters: seq<Cluster>, name: string, nodes: seq<string>)
    requires forall j | 0 <= j < |clusters| :: clusters[j].name != Str(name)
    requires nodes != []
    ensures Updated(clusters, name, nodes) == clusters
  {
    if clusters != [] {
      UpdatedNowhere(clusters[1..], name, nodes);
    }
  }

  /** `get_nodes`: of the first cluster of that name. */
  function NodesOf(clusters: seq<Cluster>, name: string): Result<seq<string>> {
    if clusters == [] then Raised
    else if clusters[0].name == Str(name) then Loaded(clusters[0].nodes)
    else NodesOf(clusters[1..], name)
  }

  /** After an update the cluster has just these nodes, or is gone, and other clusters are as they were. */
  lemma {:induction false} UpdatedNodes(clusters: seq<Cluster>, name: string, nodes: seq<string>, other: string)
    ensures other == name && nodes == [] ==> NodesOf(Updated(clusters, name, nodes), other).Raised?
    ensures other == name && nodes != [] ==>
      NodesOf(Updated(clusters, name, nodes), other) ==
        if NodesOf(clusters, name).Loaded? then Loaded(UniqSort(nodes)) else Raised
    ensures other != name ==> NodesOf(Updated(clusters, name, nodes), other) == NodesOf(clusters, other)
  {
    if clusters != [] {
      UpdatedNodes(clusters[1..], name, nodes, other);
      assert ([clusters[0]] + Updated(clusters[1..], name, nodes))[1..] == Updated(clusters[1..], name, nodes);
      assert ([clusters[0]] + Others(clusters[1..], name))[1..] == Others(clusters[1..], name);
      assert [] + Others(clusters[1..], name) == Others(clusters[1..], name);
      assert ([Cluster(clusters[0].name, UniqSort(nodes))] + clusters[1..])[1..] == clusters[1..];
    }
  }

  lemma {:induction false} UpdatedIsWf(s: Settings, name: string, nodes: seq<string>)
    requires WfSettings(s)
    ensures WfSettings(s.(clusters := Updated(s.clusters, name, nodes)))
    decreases s.clusters
  {
    if s.clusters != [] {
      UpdatedIsWf(s.(clusters := s.clusters[1..]), name, nodes);
      UniqSortTwice(nodes);
    }
  }

  // ----- `sort.uniq` -----------------------------------------------------------

  predicate WeaklySorted(s: seq<string>) {
    forall i, j | 0 <= i < j < |s| :: s[i] == s[j] || Less(s[i], s[j])
  }

  lemma {:induction false} InsertWeakly(x: string, s: seq<string>)
    requires WeaklySorted(s)
    ensures WeaklySorted(Insert(x, s, Less))
    ensures forall y :: y in Insert(x, s, Less) <==> y == x || y in s
  {
    StringsAreOrdered();
    if s != [] {
      LessIsTotal(x, s[0]);
      assert s == [s[0]] + s[1..];
      if !Less(x, s[0]) {
        InsertWeakly(x, s[1..]);
        forall y <- Insert(x, s[1..], Less) ensures s[0] == y || Less(s[0], y) {
          assert y != x ==> y in s[1..];
        }
      }
    }
  }

  lemma {:induction false} SortWeakly(s: seq<string>)
    ensures WeaklySorted(Sort(s, Less))
    ensures forall y :: y in Sort(s, Less) <==> y in s
  {
    if s != [] {
      assert s == [s[0]] + s[1..];
      SortWeakly(s[1..]);
      InsertWeakly(s[0], Sort(s[1..], Less));
    }
  }

  lemma {:induction false} UniqOfWeaklySorted(s: seq<string>)
    requires WeaklySorted(s)
    ensures Sorted(Uniq(s), Less)
  {
    if s != [] {
      var front, last := s[..|s| - 1], s[|s| - 1];
      assert s == front + [last];
      UniqOfWeaklySorted(front);
      forall y <- Uniq(front) | y != last ensures Less(y, last) {
        assert y in front;
      }
    }
  }

  /** Sorting first and dropping repetitions after gives the same list. */
  lemma SortUniqIsUniqSort(s: seq<string>)
    ensures Uniq(Sort(s, Less)) == UniqSort(s)
  {
    SortWeakly(s);
    UniqOfWeaklySorted(Sort(s, Less));
    UniqIsUniq(Sort(s, Less));
    UniqSortSorts(s);
    StringsAreOrdered();
    SortedIsCanonical(Uniq(Sort(s, Less)), UniqSort(s), Less);
  }

  class PCSConfig {
    var formatVersion: int
    var dataVersion: Json
    var clusters: seq<Cluster>
    /** The entries `@permissions_local` was made of. */
    var entities: seq<Entity>

    constructor ()
      ensures AsSettings() == Settings(0, Int(0), [], [])
    {
      formatVersion, dataVersion, clusters, entities := 0, Int(0), [], [];
    }

    function AsSettings(): Settings
      reads this
    {
      Settings(formatVersion, dataVersion, clusters, entities)
    }

    /** The body of the constructor; other results than `Loaded` are exceptions. */
    method Initialize(cfg: CfgText) returns (r: Result<()>)
      requires AsSettings() == Settings(0, Int(0), [], [])
      modifies this
      ensures match Load(cfg)
        case Loaded(s) => r == Loaded(()) && AsSettings() == s
        case Raised => r == Raised
        case Untyped => r == Untyped
    {
      if cfg.Missing? {
        formatVersion := CURRENT_FORMAT;
        entities := DefaultEntities();
        return Loaded(());
      }
      if cfg.Blank? {
        formatVersion := CURRENT_FORMAT;
        return Loaded(());
      }
      var input := ParseInput(cfg);
      formatVersion, dataVersion := input.formatVersion, input.dataVersion;
      r := InitializeClusters(input.clusters);
      if r.Loaded? {
        r := InitializePermissions(input.permissions);
      }
    }

    method InitializeClusters(json: Json) returns (r: Result<()>)
      requires clusters == []
      modifies this`clusters
      ensures match LoadAll(json, LoadCluster)
        case Loaded(cs) => r == Loaded(()) && clusters == cs
        case Raised => r == Raised
        case Untyped => r == Untyped
    {
      if !json.Arr? {
        return if json.Obj? && json.fields == map[] then Loaded(()) else Raised;
      }
      LoadNothingYet(json.items, LoadCluster);
      for i := 0 to |json.items|
        invariant LoadEach(json.items, LoadCluster) == LoadedBefore(clusters, LoadEach(json.items[i..], LoadCluster))
      {
        LoadStep(clusters, json.items, i, LoadCluster);
        var c := LoadCluster(json.items[i]);
        if !c.Loaded? {
          return if c.Raised? then Raised else Untyped;
        }
        clusters := clusters + [c.value];
      }
      assert clusters + [] == clusters;
      r := Loaded(());
    }

    method InitializePermissions(permissions: Json) returns (r: Result<()>)
      requires entities == []
      modifies this`entities
      ensures match LoadPermissions(permissions)
        case Loaded(es) => r == Loaded(()) && entities == es
        case Raised => r == Raised
        case Untyped => r == Untyped
    {
      if !permissions.Obj? {
        return Raised;
      }
      if "local_cluster" !in permissions.fields {
        return Loaded(());
      }
      var json := permissions.fields["local_cluster"];
      if !json.Arr? {
        return if json.Obj? && json.fields == map[] then Loaded(()) else Raised;
      }
      var permList: seq<Entity> := [];
      LoadNothingYet(json.items, LoadEntity);
      for i := 0 to |json.items|
        invariant LoadEach(json.items, LoadEntity) == LoadedBefore(permList, LoadEach(json.items[i..], LoadEntity))
        invariant entities == []
      {
        LoadStep(permList, json.items, i, LoadEntity);
        var e := LoadEntity(json.items[i]);
        if !e.Loaded? {
          return if e.Raised? then Raised else Untyped;
        }
        permList := permList + [e.value];
      }
      assert permList + [] == permList;
      entities := permList;
      r := Loaded(());
    }

    method UpdateCluster(clusterName: string, nodeList: seq<string>)
      modifies this`clusters
      ensures clusters == Updated(old(clusters), clusterName, nodeList)
    {
      if |nodeList| == 0 {
        clusters := Others(clusters, clusterName);
        return;
      }
      for i := 0 to |clusters|
        invariant clusters == old(clusters)
        invariant forall j | 0 <= j < i :: clusters[j].name != Str(clusterName)
      {
        if clusters[i].name == Str(clusterName) {
          UpdatedAt(clusters, i, clusterName, nodeList);
          clusters := clusters[i := Cluster(clusters[i].name, UniqSort(nodeList))];
          return;
        }
      }
      UpdatedNowhere(clusters, clusterName, nodeList);
    }

    method Text() returns (json: Json)
      ensures json == Save(AsSettings())
    {
      var saved: seq<Json> := [];
      for i := 0 to |clusters|
        invariant saved == SaveEach(clusters[..i], SaveCluster)
      {
        saved := saved + [SaveCluster(clusters[i])];
      }
      assert clusters[..|clusters|] == clusters;
      json := Obj(map["clusters" := Arr(saved), "data_version" := dataVersion, "format_version" := Int(CURRENT_FORMAT),
        "permissions" := Obj(map["local_cluster" := Arr(SaveEach(ToHash(entities), SaveEntity))])]);
    }

    /** The node lists are compared as sets; a cluster that is not there has no nodes. */
    method ClusterNodesEqual(clusterName: string, nodes: seq<string>) returns (equal: bool)
      ensures var mine := NodesOf(clusters, clusterName);
        equal <==> forall x :: (mine.Loaded? && x in mine.value) <==> x in nodes
    {
      var mine := NodesOf(clusters, clusterName);
      var myNodes := if mine.Loaded? then mine.value else [];
      SortUniqIsUniqSort(myNodes);
      SortUniqIsUniqSort(nodes);
      UniqSortIsCanonical(myNodes, nodes);
      equal := Uniq(Sort(myNodes, Less)) == Uniq(Sort(nodes, Less));
    }
  }
}
