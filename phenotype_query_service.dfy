/** The phenotype query service: the data-adapter configurations found in the
    configuration directory, listed by id, looked up by id, and shown as data
    sources. The directory listing and the parsing of each file are inputs. */
module PhenotypeQueryService {
  import opened Outcomes
  import opened Sorting

  /** What loading one file of the directory gives: a parsed configuration, whose
      id may be null, or an exception. `path` stands for the rest of it. */
  datatype LoadedFile = Parsed(id: Option<string>, path: string) | Unloadable

  /** A data-adapter configuration with a non-null id. */
  datatype DataAdapterConfig = DataAdapterConfig(id: string, path: string)

  datatype DataSource = DataSource(id: string, title: string)

  /** The result of a query; the query itself is not run yet. */
  datatype ResultSet = EmptyResultSet

  function ById(): (DataAdapterConfig, DataAdapterConfig) -> bool {
    (a: DataAdapterConfig, b: DataAdapterConfig) => StrLe(a.id, b.id)
  }

  function SourceById(): (DataSource, DataSource) -> bool {
    (a: DataSource, b: DataSource) => StrLe(a.id, b.id)
  }

  lemma ByIdIsTotalPreorder()
    ensures TotalPreorder(ById())
  {
    forall a: DataAdapterConfig, b: DataAdapterConfig ensures ById()(a, b) || ById()(b, a) {
      StrLeTotal(a.id, b.id);
    }
    forall a: DataAdapterConfig, b: DataAdapterConfig, c: DataAdapterConfig
      | ById()(a, b) && ById()(b, c) ensures ById()(a, c) {
      StrLeTrans(a.id, b.id, c.id);
    }
  }

  lemma SourceByIdIsTotalPreorder()
    ensures TotalPreorder(SourceById())
  {
    forall a: DataSource, b: DataSource ensures SourceById()(a, b) || SourceById()(b, a) {
      StrLeTotal(a.id, b.id);
    }
    forall a: DataSource, b: DataSource, c: DataSource
      | SourceById()(a, b) && SourceById()(b, c) ensures SourceById()(a, c) {
      StrLeTrans(a.id, b.id, c.id);
    }
  }

  /** toDataAdapterConfig mapped over the files, then filter(Objects::nonNull):
      files that fail to load and configurations without an id are dropped. */
  function Loadable(files: seq<LoadedFile>): (r: seq<DataAdapterConfig>)
    ensures forall c :: c in r <==> Parsed(Some(c.id), c.path) in files
    ensures |r| <= |files|
  {
    if files == [] then []
    else
      var rest := Loadable(files[1..]);
      assert forall f :: f in files <==> f == files[0] || f in files[1..];
      match files[0]
      case Parsed(Some(id), path) => [DataAdapterConfig(id, path)] + rest
      case _ => rest
  }

  /** getDataAdapterConfigs(): the loadable configurations sorted by id; a
      directory that cannot be listed (`None`) gives the empty list. */
  function GetDataAdapterConfigs(listing: Option<seq<LoadedFile>>): (r: seq<DataAdapterConfig>)
    ensures listing.None? ==> r == []
    ensures listing.Some? ==> multiset(r) == multiset(Loadable(listing.value))
    ensures SortedBy(r, ById())
  {
    match listing
    case None => []
    case Some(files) =>
      ByIdIsTotalPreorder();
      SortBy(Loadable(files), ById())
  }

  /** A configuration is listed exactly when its file loaded with a non-null id. */
  lemma ListedIffLoadable(files: seq<LoadedFile>, c: DataAdapterConfig)
    ensures c in GetDataAdapterConfigs(Some(files)) <==> Parsed(Some(c.id), c.path) in files
  {
    var r := GetDataAdapterConfigs(Some(files));
    assert c in r <==> c in multiset(r);
    assert c in Loadable(files) <==> c in multiset(Loadable(files));
  }

  /** stream().filter(a -> id.equals(a.getId())).findFirst(). */
  function FirstWithId(configs: seq<DataAdapterConfig>, id: string): (r: Option<DataAdapterConfig>)
    ensures r.Some? ==> r.value in configs && r.value.id == id
    ensures r.None? <==> forall i :: 0 <= i < |configs| ==> configs[i].id != id
    ensures r.Some? ==>
      exists i :: 0 <= i < |configs| && configs[i] == r.value && forall j :: 0 <= j < i ==> configs[j].id != id
  {
    if configs == [] then None
    else if configs[0].id == id then Some(configs[0])
    else
      var rest := FirstWithId(configs[1..], id);
      assert forall i :: 1 <= i < |configs| ==> configs[i] == configs[1..][i - 1];
      if rest.Some? then
        var i :| 0 <= i < |configs[1..]| && configs[1..][i] == rest.value
          && forall j :: 0 <= j < i ==> configs[1..][j].id != id;
        assert configs[i + 1] == rest.value;
        rest
      else rest
  }

  /** getDataAdapterConfig(id): empty for a null id, otherwise the first listed
      configuration with that id. */
  function GetDataAdapterConfig(listing: Option<seq<LoadedFile>>, id: Option<string>)
    : (r: Option<DataAdapterConfig>)
    ensures id.None? ==> r.None?
    ensures r.Some? ==> id == Some(r.value.id) && r.value in GetDataAdapterConfigs(listing)
  {
    match id
    case None => None
    case Some(x) => FirstWithId(GetDataAdapterConfigs(listing), x)
  }

  /** A non-null id is found exactly when a file with that id loaded. */
  lemma FoundIffLoaded(files: seq<LoadedFile>, id: string)
    ensures GetDataAdapterConfig(Some(files), Some(id)).Some?
        <==> exists path :: Parsed(Some(id), path) in files
  {
    var configs := GetDataAdapterConfigs(Some(files));
    if GetDataAdapterConfig(Some(files), Some(id)).Some? {
      var c := GetDataAdapterConfig(Some(files), Some(id)).value;
      ListedIffLoadable(files, c);
    }
    if exists path :: Parsed(Some(id), path) in files {
      var path :| Parsed(Some(id), path) in files;
      var c := DataAdapterConfig(id, path);
      ListedIffLoadable(files, c);
      var i :| 0 <= i < |configs| && configs[i] == c;
    }
  }

  /** `s` with every '_' replaced by ' '. */
  function ReplaceUnderscores(s: string): (r: string)
    ensures |r| == |s|
    ensures forall i :: 0 <= i < |s| ==> r[i] == if s[i] == '_' then ' ' else s[i]
  {
    if s == [] then [] else [if s[0] == '_' then ' ' else s[0]] + ReplaceUnderscores(s[1..])
  }

  function ToDataSource(c: DataAdapterConfig): DataSource {
    DataSource(c.id, ReplaceUnderscores(c.id))
  }

  /** getDataSources(): one data source per listed configuration, then sorted by
      id again. */
  function GetDataSources(listing: Option<seq<LoadedFile>>): (r: seq<DataSource>)
    ensures var configs := GetDataAdapterConfigs(listing);
      |r| == |configs|
      && forall i :: 0 <= i < |r| ==>
        r[i].id == configs[i].id && r[i].title == ReplaceUnderscores(configs[i].id)
    ensures SortedBy(r, SourceById())
  {
    var configs := GetDataAdapterConfigs(listing);
    var sources := seq(|configs|, i requires 0 <= i < |configs| => ToDataSource(configs[i]));
    SourceByIdIsTotalPreorder();
    assert SortedBy(sources, SourceById());
    SortBySortedIsIdentity(sources, SourceById());
    SortBy(sources, SourceById())
  }

  /** executeQuery(id, query): NOT_FOUND for an unknown configuration id,
      otherwise an empty result set. */
  function ExecuteQuery(listing: Option<seq<LoadedFile>>, id: Option<string>): (r: Result<ResultSet>)
    ensures r.Fail? <==> GetDataAdapterConfig(listing, id).None?
    ensures r.Fail? ==> r.status == NotFound
    ensures r.Ok? ==> r.value == EmptyResultSet
  {
    if GetDataAdapterConfig(listing, id).None? then Fail(NotFound) else Ok(EmptyResultSet)
  }

  /** A data source's title holds no underscore and is as long as its id. */
  lemma TitleHasNoUnderscore(listing: Option<seq<LoadedFile>>, i: nat)
    requires i < |GetDataSources(listing)|
    ensures '_' !in GetDataSources(listing)[i].title
    ensures |GetDataSources(listing)[i].title| == |GetDataSources(listing)[i].id|
  {
    var t := GetDataSources(listing)[i].title;
    forall k | 0 <= k < |t| ensures t[k] != '_' { }
  }
}
