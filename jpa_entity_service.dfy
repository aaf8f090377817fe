/** The entity service of the JPA back end, over the relational store: entities
    of a repository, each with a chain of numbered versions linked through their
    previous version and a pointer to its current version, super-entity links
    within the repository, and origin / fork links. The JPA repositories are the
    maps of `EntityStore`; the next version of a version is the one that names it
    as its previous version. */
module JpaEntityService {
  import opened Outcomes
  import opened ApiModel
  import opened Sorting
  import opened Paging

  /** The generated primary key of an entity-version row. */
  type VersionKey = nat

  datatype RepositoryRow = RepositoryRow(organisationId: string, name: string, primary: bool)

  datatype EntityRow = EntityRow(
    repositoryId: string,
    entityType: Option<EntityType>,
    current: Option<VersionKey>,
    superEntities: seq<string>,
    origin: Option<string>,
    forks: seq<string>)

  datatype VersionRow = VersionRow(
    entityId: string,
    version: int,
    previous: Option<VersionKey>,
    titles: seq<LocalisableText>,
    synonyms: seq<LocalisableText>,
    descriptions: seq<LocalisableText>)

  /** The API entity the service returns: the entity's fields with the texts and
      number of one of its versions. */
  datatype EntityView = EntityView(
    id: string,
    repositoryId: string,
    entityType: Option<EntityType>,
    version: Option<int>,
    titles: seq<LocalisableText>,
    synonyms: seq<LocalisableText>,
    descriptions: seq<LocalisableText>,
    superEntities: seq<string>)

  datatype OriginView = OriginView(id: string, titles: seq<LocalisableText>)
  datatype ForkView = ForkView(id: string, repositoryId: string, repositoryName: string)
  datatype ForkingStats = ForkingStats(origin: Option<OriginView>, forks: seq<ForkView>)

  /** Where a fork goes, and whether the subclasses go with it. */
  datatype ForkingInstruction = ForkingInstruction(organisationId: string, repositoryId: string, cascade: bool)

  // ------------------------------------------------------------ version chains

  /** `chain` lists the versions of entity `e` from the first to the latest: the
      first has no previous version, each other one has the one before it, and
      the numbers increase along it. */
  ghost predicate IsChain(versions: map<VersionKey, VersionRow>, e: string, chain: seq<VersionKey>) {
    && (forall i :: 0 <= i < |chain| ==> chain[i] in versions && versions[chain[i]].entityId == e)
    && (|chain| > 0 ==> versions[chain[0]].previous == None)
    && (forall i :: 0 < i < |chain| ==> versions[chain[i]].previous == Some(chain[i - 1]))
    && (forall i, j :: 0 <= i < j < |chain| ==> versions[chain[i]].version < versions[chain[j]].version)
  }

  /** Every entity's chain is a chain. */
  ghost predicate AllChains(versions: map<VersionKey, VersionRow>, chains: map<string, seq<VersionKey>>) {
    forall e :: e in chains ==> IsChain(versions, e, chains[e])
  }

  /** The store invariant, on the store's parts: every entity lives in a stored
      repository, its versions form its chain, keys are below the next key, and
      the current version is one of the entity's own. */
  ghost predicate ValidStore(
    repositories: map<string, RepositoryRow>, entities: map<string, EntityRow>,
    versions: map<VersionKey, VersionRow>, nextKey: VersionKey, chains: map<string, seq<VersionKey>>)
  {
    TablesLinked(repositories, entities, versions, nextKey, chains) && ChainsHold(entities, versions, chains)
  }

  /** Every entity has a chain and lives in a stored repository, and keys are
      below the next key. */
  ghost predicate TablesLinked(
    repositories: map<string, RepositoryRow>, entities: map<string, EntityRow>,
    versions: map<VersionKey, VersionRow>, nextKey: VersionKey, chains: map<string, seq<VersionKey>>)
  {
    && chains.Keys == entities.Keys
    && (forall e :: e in entities ==> entities[e].repositoryId in repositories)
    && (forall k :: k in versions ==> k < nextKey)
  }

  /** The chains are chains, hold every stored version and every current one. */
  ghost predicate ChainsHold(
    entities: map<string, EntityRow>, versions: map<VersionKey, VersionRow>, chains: map<string, seq<VersionKey>>)
  {
    AllChains(versions, chains) && RowsInChains(versions, chains) && CurrentInChains(entities, chains)
  }

  /** Every stored version is in its entity's chain. */
  ghost predicate RowsInChains(versions: map<VersionKey, VersionRow>, chains: map<string, seq<VersionKey>>) {
    forall k :: k in versions ==> versions[k].entityId in chains && k in chains[versions[k].entityId]
  }

  /** Every current version is in its entity's chain. */
  ghost predicate CurrentInChains(entities: map<string, EntityRow>, chains: map<string, seq<VersionKey>>) {
    forall e :: e in entities && entities[e].current.Some? ==> e in chains && entities[e].current.value in chains[e]
  }

  /** Two versions of one entity with the same number are the same version. */
  lemma NumbersUnique(
    repositories: map<string, RepositoryRow>, entities: map<string, EntityRow>,
    versions: map<VersionKey, VersionRow>, nextKey: VersionKey, chains: map<string, seq<VersionKey>>,
    k1: VersionKey, k2: VersionKey)
    requires ValidStore(repositories, entities, versions, nextKey, chains)
    requires k1 in versions && k2 in versions
    requires versions[k1].entityId == versions[k2].entityId && versions[k1].version == versions[k2].version
    ensures k1 == k2
  {
    var chain := chains[versions[k1].entityId];
    var i :| 0 <= i < |chain| && chain[i] == k1;
    var j :| 0 <= j < |chain| && chain[j] == k2;
    assert IsChain(versions, versions[k1].entityId, chain);
    ChainIndexUnique(versions, versions[k1].entityId, chain, i, j);
  }

  /** Two places of a chain with the same version number are the same place;
      so a version occurs once in its chain. */
  lemma ChainIndexUnique(versions: map<VersionKey, VersionRow>, e: string, chain: seq<VersionKey>, i: nat, j: nat)
    requires IsChain(versions, e, chain)
    requires i < |chain| && j < |chain| && versions[chain[i]].version == versions[chain[j]].version
    ensures i == j
  {
  }

  /** Different places of a chain hold different versions. */
  lemma ChainKeysDistinct(versions: map<VersionKey, VersionRow>, e: string, chain: seq<VersionKey>, i: nat, j: nat)
    requires IsChain(versions, e, chain)
    requires i < |chain| && j < |chain| && i != j
    ensures chain[i] != chain[j]
  {
    if i < j { assert versions[chain[i]].version < versions[chain[j]].version; }
    else { assert versions[chain[j]].version < versions[chain[i]].version; }
  }

  /** The version that names the `i`-th version of a chain as its previous one
      is the `i+1`-th. */
  lemma SuccessorIsNext(
    repositories: map<string, RepositoryRow>, entities: map<string, EntityRow>,
    versions: map<VersionKey, VersionRow>, nextKey: VersionKey, chains: map<string, seq<VersionKey>>,
    e: string, i: nat, s: VersionKey)
    requires ValidStore(repositories, entities, versions, nextKey, chains)
    requires e in chains && i < |chains[e]|
    ensures s in versions && versions[s].previous == Some(chains[e][i])
        <==> i + 1 < |chains[e]| && s == chains[e][i + 1]
  {
    var chain := chains[e];
    assert IsChain(versions, e, chain);
    if s in versions && versions[s].previous == Some(chain[i]) {
      var e' := versions[s].entityId;
      var chain' := chains[e'];
      assert IsChain(versions, e', chain');
      var m :| 0 <= m < |chain'| && chain'[m] == s;
      assert m > 0;
      assert chain'[m - 1] == chain[i];
      assert e' == e;
      ChainIndexUnique(versions, e, chain, m - 1, i);
    }
  }

  /** The latest version of an entity, the one no version names as its previous,
      is the last of its chain; an entity without versions has none. */
  lemma LatestIsLast(
    repositories: map<string, RepositoryRow>, entities: map<string, EntityRow>,
    versions: map<VersionKey, VersionRow>, nextKey: VersionKey, chains: map<string, seq<VersionKey>>,
    e: string, k: VersionKey)
    requires ValidStore(repositories, entities, versions, nextKey, chains)
    requires e in chains
    ensures IsLatest(versions, e, k) <==> |chains[e]| > 0 && k == chains[e][|chains[e]| - 1]
  {
    var chain := chains[e];
    assert IsChain(versions, e, chain);
    if IsLatest(versions, e, k) {
      var i :| 0 <= i < |chain| && chain[i] == k;
      assert i + 1 == |chain| by {
        if i + 1 < |chain| {
          SuccessorIsNext(repositories, entities, versions, nextKey, chains, e, i, chain[i + 1]);
        }
      }
    }
    if |chain| > 0 && k == chain[|chain| - 1] {
      forall s | s in versions ensures versions[s].previous != Some(k) {
        SuccessorIsNext(repositories, entities, versions, nextKey, chains, e, |chain| - 1, s);
      }
    }
  }

  /** findByEntityIdAndNextVersionIsNull: version `k` of entity `e` has no next
      version. */
  predicate IsLatest(versions: map<VersionKey, VersionRow>, e: string, k: VersionKey) {
    && k in versions && versions[k].entityId == e
    && forall s :: s in versions ==> versions[s].previous != Some(k)
  }

  /** An entity has a latest version exactly when it has any version; in
      particular every entity with a current version has one. */
  lemma LatestExists(
    repositories: map<string, RepositoryRow>, entities: map<string, EntityRow>,
    versions: map<VersionKey, VersionRow>, nextKey: VersionKey, chains: map<string, seq<VersionKey>>,
    e: string)
    requires ValidStore(repositories, entities, versions, nextKey, chains)
    requires e in entities
    ensures (exists k :: IsLatest(versions, e, k)) <==> (exists j :: j in versions && versions[j].entityId == e)
    ensures entities[e].current.Some? ==> exists k :: IsLatest(versions, e, k)
  {
    var chain := chains[e];
    assert IsChain(versions, e, chain);
    if exists j :: j in versions && versions[j].entityId == e {
      var j :| j in versions && versions[j].entityId == e;
      assert j in chain;
      LatestIsLast(repositories, entities, versions, nextKey, chains, e, chain[|chain| - 1]);
    }
    if entities[e].current.Some? {
      assert entities[e].current.value in chain;
      LatestIsLast(repositories, entities, versions, nextKey, chains, e, chain[|chain| - 1]);
    }
  }

  /** The versions without `k`, where the version after `k`, if any, now names
      `k`'s previous version as its own. */
  function Unlink(versions: map<VersionKey, VersionRow>, k: VersionKey, next: Option<VersionKey>): (r: map<VersionKey, VersionRow>)
    requires k in versions && (next.Some? ==> next.value in versions)
    ensures forall j :: j in r <==> j in versions && j != k
    ensures next.Some? && next.value != k ==> r[next.value] == versions[next.value].(previous := versions[k].previous)
    ensures forall j :: j in r && Some(j) != next ==> r[j] == versions[j]
    ensures forall j :: j in r ==> r[j].entityId == versions[j].entityId && r[j].version == versions[j].version
  {
    if next.Some? then versions[next.value := versions[next.value].(previous := versions[k].previous)] - {k}
    else versions - {k}
  }

  /** Unlinking the `i`-th version of a chain leaves the chain without it. */
  lemma UnlinkKeepsChain(versions: map<VersionKey, VersionRow>, e: string, chain: seq<VersionKey>, i: nat)
    requires IsChain(versions, e, chain) && i < |chain|
    ensures IsChain(Unlink(versions, chain[i], if i + 1 < |chain| then Some(chain[i + 1]) else None),
                    e, chain[..i] + chain[i + 1..])
  {
    var next := if i + 1 < |chain| then Some(chain[i + 1]) else None;
    var after := Unlink(versions, chain[i], next);
    var rest := chain[..i] + chain[i + 1..];
    UnlinkKeepsRows(versions, e, chain, i, next, after, rest);
    UnlinkKeepsLinks(versions, e, chain, i, next, after, rest);
  }

  lemma UnlinkKeepsRows(
    versions: map<VersionKey, VersionRow>, e: string, chain: seq<VersionKey>, i: nat,
    next: Option<VersionKey>, after: map<VersionKey, VersionRow>, rest: seq<VersionKey>)
    requires IsChain(versions, e, chain) && i < |chain|
    requires next == (if i + 1 < |chain| then Some(chain[i + 1]) else None)
    requires after == Unlink(versions, chain[i], next)
    requires rest == chain[..i] + chain[i + 1..]
    ensures forall j :: 0 <= j < |rest| ==> rest[j] in after && after[rest[j]].entityId == e
    ensures forall j1, j2 :: 0 <= j1 < j2 < |rest| ==> after[rest[j1]].version < after[rest[j2]].version
  {
    forall j | 0 <= j < |rest| ensures rest[j] in after && after[rest[j]].entityId == e
      && after[rest[j]].version == versions[rest[j]].version
    {
      if j < i {
        assert rest[j] == chain[j];
        ChainKeysDistinct(versions, e, chain, j, i);
        if i + 1 < |chain| { ChainKeysDistinct(versions, e, chain, j, i + 1); }
      } else {
        assert rest[j] == chain[j + 1];
        ChainKeysDistinct(versions, e, chain, j + 1, i);
      }
    }
    forall j1, j2 | 0 <= j1 < j2 < |rest| ensures after[rest[j1]].version < after[rest[j2]].version {
      var a := if j1 < i then j1 else j1 + 1;
      var b := if j2 < i then j2 else j2 + 1;
      assert rest[j1] == chain[a] && rest[j2] == chain[b];
      assert versions[chain[a]].version < versions[chain[b]].version;
    }
  }

  lemma UnlinkKeepsLinks(
    versions: map<VersionKey, VersionRow>, e: string, chain: seq<VersionKey>, i: nat,
    next: Option<VersionKey>, after: map<VersionKey, VersionRow>, rest: seq<VersionKey>)
    requires IsChain(versions, e, chain) && i < |chain|
    requires next == (if i + 1 < |chain| then Some(chain[i + 1]) else None)
    requires after == Unlink(versions, chain[i], next)
    requires rest == chain[..i] + chain[i + 1..]
    ensures forall j :: 0 <= j < |rest| ==> rest[j] in after
    ensures |rest| > 0 ==> after[rest[0]].previous == None
    ensures forall j :: 0 < j < |rest| ==> after[rest[j]].previous == Some(rest[j - 1])
  {
    forall j | 0 <= j < |rest| ensures rest[j] in after {
      if j < i {
        assert rest[j] == chain[j];
        ChainKeysDistinct(versions, e, chain, j, i);
      } else {
        assert rest[j] == chain[j + 1];
        ChainKeysDistinct(versions, e, chain, j + 1, i);
      }
    }
    forall j | 0 < j < |rest| ensures after[rest[j]].previous == Some(rest[j - 1]) {
      UnlinkLinkAt(versions, e, chain, i, next, after, rest, j);
    }
    if |rest| > 0 {
      if i == 0 {
        assert rest[0] == chain[1];
      } else {
        assert rest[0] == chain[0];
        ChainKeysDistinct(versions, e, chain, 0, i);
        if i + 1 < |chain| { ChainKeysDistinct(versions, e, chain, 0, i + 1); }
      }
    }
  }

  /** The `j`-th version left after unlinking names the one before it. */
  lemma UnlinkLinkAt(
    versions: map<VersionKey, VersionRow>, e: string, chain: seq<VersionKey>, i: nat,
    next: Option<VersionKey>, after: map<VersionKey, VersionRow>, rest: seq<VersionKey>, j: nat)
    requires IsChain(versions, e, chain) && i < |chain|
    requires next == (if i + 1 < |chain| then Some(chain[i + 1]) else None)
    requires after == Unlink(versions, chain[i], next)
    requires rest == chain[..i] + chain[i + 1..]
    requires 0 < j < |rest|
    ensures rest[j] in after && after[rest[j]].previous == Some(rest[j - 1])
  {
    if j < i {
      assert rest[j] == chain[j] && rest[j - 1] == chain[j - 1];
      ChainKeysDistinct(versions, e, chain, j, i);
      if i + 1 < |chain| { ChainKeysDistinct(versions, e, chain, j, i + 1); }
    } else if j == i {
      assert rest[j] == chain[i + 1] && rest[j - 1] == chain[i - 1];
    } else {
      assert rest[j] == chain[j + 1] && rest[j - 1] == chain[j];
      ChainKeysDistinct(versions, e, chain, j + 1, i);
      ChainKeysDistinct(versions, e, chain, j + 1, i + 1);
    }
  }

  // ------------------------------------------------------------ invariant steps

  /** A chain stays a chain in any store that keeps its rows. */
  lemma ChainSurvives(
    versions: map<VersionKey, VersionRow>, versions': map<VersionKey, VersionRow>, e: string, chain: seq<VersionKey>)
    requires IsChain(versions, e, chain)
    requires forall j :: 0 <= j < |chain| ==> chain[j] in versions' && versions'[chain[j]] == versions[chain[j]]
    ensures IsChain(versions', e, chain)
  {
  }

  /** A new entity whose one version is stored under the next key, as its
      current version, keeps the invariant. */
  lemma AddEntityStaysValid(
    repositories: map<string, RepositoryRow>, entities: map<string, EntityRow>,
    versions: map<VersionKey, VersionRow>, nextKey: VersionKey, chains: map<string, seq<VersionKey>>,
    id: string, row: EntityRow, v: VersionRow)
    requires ValidStore(repositories, entities, versions, nextKey, chains)
    requires id !in entities && row.repositoryId in repositories && row.current == Some(nextKey)
    requires v.entityId == id && v.previous == None
    ensures ValidStore(repositories, entities[id := row], versions[nextKey := v], nextKey + 1,
                       chains[id := [nextKey]])
  {
    AddEntityKeepsChains(entities, versions, nextKey, chains, id, row, v);
  }

  /** The chains, with a one-version chain for the new entity, still hold. */
  lemma AddEntityKeepsChains(
    entities: map<string, EntityRow>, versions: map<VersionKey, VersionRow>, nextKey: VersionKey,
    chains: map<string, seq<VersionKey>>, id: string, row: EntityRow, v: VersionRow)
    requires ChainsHold(entities, versions, chains)
    requires forall k :: k in versions ==> k < nextKey
    requires id !in chains && row.current == Some(nextKey)
    requires v.entityId == id && v.previous == None
    ensures ChainsHold(entities[id := row], versions[nextKey := v], chains[id := [nextKey]])
  {
    var versions' := versions[nextKey := v];
    var chains' := chains[id := [nextKey]];
    forall e | e in chains' ensures IsChain(versions', e, chains'[e]) {
      if e != id {
        var c := chains[e];
        assert IsChain(versions, e, c);
        ChainSurvives(versions, versions', e, c);
      }
    }
    forall k | k in versions' ensures versions'[k].entityId in chains' && k in chains'[versions'[k].entityId] {
      if k != nextKey {
        assert versions[k].entityId in chains && k in chains[versions[k].entityId];
      }
    }
  }

  /** A version stored under the next key after the last of its entity's chain,
      with a larger number, and made current keeps the invariant. */
  lemma AppendVersionStaysValid(
    repositories: map<string, RepositoryRow>, entities: map<string, EntityRow>,
    versions: map<VersionKey, VersionRow>, nextKey: VersionKey, chains: map<string, seq<VersionKey>>,
    id: string, v: VersionRow)
    requires ValidStore(repositories, entities, versions, nextKey, chains)
    requires id in entities && v.entityId == id
    requires v.previous == if chains[id] == [] then None else Some(chains[id][|chains[id]| - 1])
    requires forall j :: j in chains[id] ==> versions[j].version < v.version
    ensures ValidStore(repositories, entities[id := entities[id].(current := Some(nextKey))],
                       versions[nextKey := v], nextKey + 1, chains[id := chains[id] + [nextKey]])
  {
    AppendKeepsChainsHold(entities, versions, nextKey, chains, id, v);
  }

  /** The chains, with the new version at the end of its entity's, still hold. */
  lemma AppendKeepsChainsHold(
    entities: map<string, EntityRow>, versions: map<VersionKey, VersionRow>, nextKey: VersionKey,
    chains: map<string, seq<VersionKey>>, id: string, v: VersionRow)
    requires ChainsHold(entities, versions, chains)
    requires forall k :: k in versions ==> k < nextKey
    requires id in entities && id in chains && v.entityId == id
    requires v.previous == if chains[id] == [] then None else Some(chains[id][|chains[id]| - 1])
    requires forall j :: j in chains[id] ==> versions[j].version < v.version
    ensures ChainsHold(entities[id := entities[id].(current := Some(nextKey))],
                       versions[nextKey := v], chains[id := chains[id] + [nextKey]])
  {
    AppendKeepsChains(versions, nextKey, chains, id, v);
    var versions' := versions[nextKey := v];
    var chains' := chains[id := chains[id] + [nextKey]];
    forall k | k in versions' ensures versions'[k].entityId in chains' && k in chains'[versions'[k].entityId] {
      if k != nextKey {
        assert versions[k].entityId in chains && k in chains[versions[k].entityId];
      }
    }
  }

  /** Appending a version to its entity's chain keeps every chain a chain. */
  lemma AppendKeepsChains(
    versions: map<VersionKey, VersionRow>, nextKey: VersionKey, chains: map<string, seq<VersionKey>>,
    id: string, v: VersionRow)
    requires AllChains(versions, chains) && nextKey !in versions
    requires forall k :: k in versions ==> k < nextKey
    requires id in chains && v.entityId == id
    requires v.previous == if chains[id] == [] then None else Some(chains[id][|chains[id]| - 1])
    requires forall j :: j in chains[id] ==> versions[j].version < v.version
    ensures AllChains(versions[nextKey := v], chains[id := chains[id] + [nextKey]])
  {
    var versions' := versions[nextKey := v];
    NewKeyKeepsChains(versions, nextKey, chains, v);
    var chain := chains[id];
    assert IsChain(versions', id, chain);
    forall i | 0 <= i < |chain| ensures versions'[chain[i]].version < v.version {
      assert chain[i] in chain;
    }
    AppendKeepsChain(versions', id, chain, nextKey);
  }

  /** Every chain stays a chain when a row is stored under an unused key. */
  lemma NewKeyKeepsChains(
    versions: map<VersionKey, VersionRow>, nextKey: VersionKey, chains: map<string, seq<VersionKey>>, v: VersionRow)
    requires AllChains(versions, chains) && nextKey !in versions
    ensures AllChains(versions[nextKey := v], chains)
  {
    forall e | e in chains ensures IsChain(versions[nextKey := v], e, chains[e]) {
      assert IsChain(versions, e, chains[e]);
      ChainSurvives(versions, versions[nextKey := v], e, chains[e]);
    }
  }

  /** A chain extended by a version of the same entity that names the chain's
      last version as its previous one, with a larger number, is a chain. */
  lemma AppendKeepsChain(versions: map<VersionKey, VersionRow>, e: string, chain: seq<VersionKey>, k: VersionKey)
    requires IsChain(versions, e, chain)
    requires k in versions && versions[k].entityId == e
    requires versions[k].previous == if chain == [] then None else Some(chain[|chain| - 1])
    requires forall i :: 0 <= i < |chain| ==> versions[chain[i]].version < versions[k].version
    ensures IsChain(versions, e, chain + [k])
  {
    var chain' := chain + [k];
    forall i, j | 0 <= i < j < |chain'| ensures versions[chain'[i]].version < versions[chain'[j]].version {
      assert chain'[i] == chain[i];
    }
  }

  /** Unlinking a non-current version from its entity's chain keeps the
      invariant, with the chain shortened by that version. */
  lemma DeleteVersionStaysValid(
    repositories: map<string, RepositoryRow>, entities: map<string, EntityRow>,
    versions: map<VersionKey, VersionRow>, nextKey: VersionKey, chains: map<string, seq<VersionKey>>,
    id: string, i: nat, after: map<VersionKey, VersionRow>, rest: seq<VersionKey>)
    requires ValidStore(repositories, entities, versions, nextKey, chains)
    requires id in entities && i < |chains[id]| && entities[id].current != Some(chains[id][i])
    requires after == Unlink(versions, chains[id][i], if i + 1 < |chains[id]| then Some(chains[id][i + 1]) else None)
    requires rest == chains[id][..i] + chains[id][i + 1..]
    ensures ValidStore(repositories, entities, after, nextKey, chains[id := rest])
  {
    UnlinkKeepsParts(entities, versions, chains, id, i, after, rest);
    UnlinkKeepsTableLinks(repositories, entities, versions, nextKey, chains, id, i, after, rest);
  }

  /** Unlinking a version keeps the links between the tables. */
  lemma UnlinkKeepsTableLinks(
    repositories: map<string, RepositoryRow>, entities: map<string, EntityRow>,
    versions: map<VersionKey, VersionRow>, nextKey: VersionKey, chains: map<string, seq<VersionKey>>,
    id: string, i: nat, after: map<VersionKey, VersionRow>, rest: seq<VersionKey>)
    requires TablesLinked(repositories, entities, versions, nextKey, chains)
    requires id in chains && i < |chains[id]| && chains[id][i] in versions
    requires i + 1 < |chains[id]| ==> chains[id][i + 1] in versions
    requires after == Unlink(versions, chains[id][i], if i + 1 < |chains[id]| then Some(chains[id][i + 1]) else None)
    ensures TablesLinked(repositories, entities, after, nextKey, chains[id := rest])
  {
  }

  /** The chain parts of the invariant survive unlinking a non-current version. */
  lemma UnlinkKeepsParts(
    entities: map<string, EntityRow>, versions: map<VersionKey, VersionRow>, chains: map<string, seq<VersionKey>>,
    id: string, i: nat, after: map<VersionKey, VersionRow>, rest: seq<VersionKey>)
    requires ChainsHold(entities, versions, chains)
    requires id in entities && id in chains && i < |chains[id]| && entities[id].current != Some(chains[id][i])
    requires after == Unlink(versions, chains[id][i], if i + 1 < |chains[id]| then Some(chains[id][i + 1]) else None)
    requires rest == chains[id][..i] + chains[id][i + 1..]
    ensures ChainsHold(entities, after, chains[id := rest])
  {
    UnlinkKeepsChains(versions, chains, id, i);
    assert IsChain(versions, id, chains[id]);
    RowsStayInChains(versions, chains, id, i, after, rest);
    CurrentStaysInChain(entities, chains, id, i, rest);
  }

  /** The invariant from its parts. */
  lemma StoreFromParts(
    repositories: map<string, RepositoryRow>, entities: map<string, EntityRow>,
    versions: map<VersionKey, VersionRow>, nextKey: VersionKey, chains: map<string, seq<VersionKey>>)
    requires chains.Keys == entities.Keys
    requires forall e :: e in entities ==> entities[e].repositoryId in repositories
    requires AllChains(versions, chains)
    requires forall k :: k in versions ==> k < nextKey
    requires RowsInChains(versions, chains)
    requires CurrentInChains(entities, chains)
    ensures ValidStore(repositories, entities, versions, nextKey, chains)
  {
  }

  /** Every current version stays in its chain when a non-current version is
      taken out of one. */
  lemma CurrentStaysInChain(
    entities: map<string, EntityRow>, chains: map<string, seq<VersionKey>>, id: string, i: nat, rest: seq<VersionKey>)
    requires CurrentInChains(entities, chains)
    requires id in entities && id in chains && i < |chains[id]| && entities[id].current != Some(chains[id][i])
    requires rest == chains[id][..i] + chains[id][i + 1..]
    ensures CurrentInChains(entities, chains[id := rest])
  {
    var chain := chains[id];
    if entities[id].current.Some? {
      var m :| 0 <= m < |chain| && chain[m] == entities[id].current.value;
      if m < i { assert rest[m] == chain[m]; } else { assert rest[m - 1] == chain[m]; }
    }
  }

  /** Unlinking the `i`-th version of an entity's chain keeps every chain, with
      that one shortened, a chain. */
  lemma UnlinkKeepsChains(versions: map<VersionKey, VersionRow>, chains: map<string, seq<VersionKey>>, id: string, i: nat)
    requires AllChains(versions, chains)
    requires id in chains && i < |chains[id]|
    ensures var chain := chains[id];
      AllChains(Unlink(versions, chain[i], if i + 1 < |chain| then Some(chain[i + 1]) else None),
                chains[id := chain[..i] + chain[i + 1..]])
  {
    var chain := chains[id];
    assert IsChain(versions, id, chain);
    var after := Unlink(versions, chain[i], if i + 1 < |chain| then Some(chain[i + 1]) else None);
    UnlinkKeepsChain(versions, id, chain, i);
    forall e | e in chains && e != id ensures IsChain(after, e, chains[e]) {
      var c := chains[e];
      assert IsChain(versions, e, c);
      ChainSurvives(versions, after, e, c);
    }
  }

  /** Every version left after unlinking is in its entity's chain. */
  lemma RowsStayInChains(
    versions: map<VersionKey, VersionRow>, chains: map<string, seq<VersionKey>>, id: string, i: nat,
    after: map<VersionKey, VersionRow>, rest: seq<VersionKey>)
    requires id in chains && i < |chains[id]| && rest == chains[id][..i] + chains[id][i + 1..]
    requires forall j :: j in after ==> j in versions && j != chains[id][i] && after[j].entityId == versions[j].entityId
    requires RowsInChains(versions, chains)
    ensures RowsInChains(after, chains[id := rest])
  {
    forall k | k in after ensures after[k].entityId in chains[id := rest] && k in chains[id := rest][after[k].entityId] {
      RowStaysInChain(versions, chains, id, i, after, rest, k);
    }
  }

  /** A version of the chain other than its `i`-th is in the chain without it. */
  lemma RowStaysInChain(
    versions: map<VersionKey, VersionRow>, chains: map<string, seq<VersionKey>>, id: string, i: nat,
    after: map<VersionKey, VersionRow>, rest: seq<VersionKey>, k: VersionKey)
    requires id in chains && i < |chains[id]| && rest == chains[id][..i] + chains[id][i + 1..]
    requires forall j :: j in after ==> j in versions && j != chains[id][i] && after[j].entityId == versions[j].entityId
    requires forall j :: j in versions ==> versions[j].entityId in chains && j in chains[versions[j].entityId]
    requires k in after || (k in chains[id] && k != chains[id][i])
    ensures k in after ==> after[k].entityId in chains[id := rest]
    ensures k in after ==> k in chains[id := rest][after[k].entityId]
    ensures k in chains[id] && k != chains[id][i] ==> k in rest
  {
    var chain := chains[id];
    if k in chain && k != chain[i] {
      var m :| 0 <= m < |chain| && chain[m] == k;
      if m < i { assert rest[m] == k; } else { assert rest[m - 1] == k; }
    }
    if k in after && versions[k].entityId == id {
      var m :| 0 <= m < |chain| && chain[m] == k;
      if m < i { assert rest[m] == k; } else { assert rest[m - 1] == k; }
    }
  }

  /** Removing an entity together with its versions keeps the invariant; the
      store after the removal is given by what it holds. */
  lemma DropEntityStaysValid(
    repositories: map<string, RepositoryRow>, entities: map<string, EntityRow>,
    versions: map<VersionKey, VersionRow>, nextKey: VersionKey, chains: map<string, seq<VersionKey>>,
    id: string, entities': map<string, EntityRow>, versions': map<VersionKey, VersionRow>,
    chains': map<string, seq<VersionKey>>)
    requires ValidStore(repositories, entities, versions, nextKey, chains)
    requires forall e :: e in entities' <==> e in entities && e != id
    requires forall e :: e in entities' ==> entities'[e] == entities[e]
    requires forall e :: e in chains' <==> e in chains && e != id
    requires forall e :: e in chains' ==> chains'[e] == chains[e]
    requires forall k :: k in versions' <==> k in versions && versions[k].entityId != id
    requires forall k :: k in versions' ==> versions'[k] == versions[k]
    ensures ValidStore(repositories, entities', versions', nextKey, chains')
  {
    DropEntityKeepsChains(entities, versions, chains, id, entities', versions', chains');
  }

  /** The chains of the other entities still hold once an entity and its
      versions are gone. */
  lemma DropEntityKeepsChains(
    entities: map<string, EntityRow>, versions: map<VersionKey, VersionRow>, chains: map<string, seq<VersionKey>>,
    id: string, entities': map<string, EntityRow>, versions': map<VersionKey, VersionRow>,
    chains': map<string, seq<VersionKey>>)
    requires ChainsHold(entities, versions, chains)
    requires forall e :: e in entities' <==> e in entities && e != id
    requires forall e :: e in entities' ==> entities'[e] == entities[e]
    requires forall e :: e in chains' <==> e in chains && e != id
    requires forall e :: e in chains' ==> chains'[e] == chains[e]
    requires forall k :: k in versions' <==> k in versions && versions[k].entityId != id
    requires forall k :: k in versions' ==> versions'[k] == versions[k]
    ensures ChainsHold(entities', versions', chains')
  {
    forall e | e in chains' ensures IsChain(versions', e, chains'[e]) {
      var c := chains[e];
      assert IsChain(versions, e, c);
      ChainSurvives(versions, versions', e, c);
    }
    forall k | k in versions' ensures versions'[k].entityId in chains' && k in chains'[versions'[k].entityId] {
      assert versions[k].entityId in chains && k in chains[versions[k].entityId];
    }
  }

  /** The versions that do not belong to entity `id`. */
  function VersionsWithout(versions: map<VersionKey, VersionRow>, id: string): (r: map<VersionKey, VersionRow>)
    ensures forall k :: k in r <==> k in versions && versions[k].entityId != id
    ensures forall k :: k in r ==> r[k] == versions[k]
  {
    map k | k in versions && versions[k].entityId != id :: versions[k]
  }

  /** Keeps the ids that name an entity of the repository, in order. */
  function ExistingIn(entities: map<string, EntityRow>, ids: seq<string>, repositoryId: string): (r: seq<string>)
    ensures forall x :: x in r <==> x in ids && x in entities && entities[x].repositoryId == repositoryId
    ensures |r| <= |ids|
  {
    if ids == [] then []
    else
      var init := ids[..|ids| - 1];
      var last := ids[|ids| - 1];
      var rest := ExistingIn(entities, init, repositoryId);
      assert forall x :: x in ids <==> x == last || x in init by { assert ids == init + [last]; }
      if last in entities && entities[last].repositoryId == repositoryId then rest + [last] else rest
  }

  /** The map without the entry for `x`. */
  function Without<V>(m: map<string, V>, x: string): (r: map<string, V>)
    ensures forall y :: y in r <==> y in m && y != x
    ensures forall y :: y in r ==> r[y] == m[y]
  {
    m - {x}
  }

  // ------------------------------------------------------------ the tables

  /** The four tables of the store, as one value. */
  datatype Db = Db(
    repositories: map<string, RepositoryRow>,
    entities: map<string, EntityRow>,
    versions: map<VersionKey, VersionRow>,
    nextKey: VersionKey)

  /** What the queries rely on: references between the tables resolve. */
  ghost predicate Consistent(db: Db) {
    && (forall e :: e in db.entities ==> db.entities[e].repositoryId in db.repositories)
    && (forall k :: k in db.versions ==> db.versions[k].entityId in db.entities)
    && (forall k :: k in db.versions ==> k < db.nextKey)
    && (forall e :: e in db.entities && db.entities[e].current.Some? ==>
          db.entities[e].current.value in db.versions && db.versions[db.entities[e].current.value].entityId == e)
  }

  /** The store invariant on the tables, with the chains that witness it. */
  ghost predicate ValidDb(db: Db, chains: map<string, seq<VersionKey>>) {
    && Consistent(db)
    && ValidStore(db.repositories, db.entities, db.versions, db.nextKey, chains)
  }

  /** The invariant gives consistent tables. */
  lemma ValidIsConsistent(db: Db, chains: map<string, seq<VersionKey>>)
    requires ValidStore(db.repositories, db.entities, db.versions, db.nextKey, chains)
    ensures Consistent(db)
  {
    forall e | e in db.entities && db.entities[e].current.Some?
      ensures db.entities[e].current.value in db.versions
      ensures db.versions[db.entities[e].current.value].entityId == e
    {
      assert IsChain(db.versions, e, chains[e]);
    }
  }

  /** The least of a set of keys, if it has any: the row a query returns. */
  function LeastKey(s: set<int>): (r: Option<VersionKey>)
    requires forall k :: k in s ==> 0 <= k
    ensures r.Some? ==> r.value in s && forall k :: k in s ==> r.value <= k
    ensures r.None? ==> s == {}
  {
    var ks := OrderedInts(s);
    if ks == [] then
      assert forall k :: k !in s;
      None
    else
      assert forall k :: k in s ==> ks[0] <= k by {
        forall k | k in s ensures ks[0] <= k {
          var j :| 0 <= j < |ks| && ks[j] == k;
        }
      }
      Some(ks[0])
  }

  /** getRepository(organisationId, repositoryId): the repository with that id
      in the organisation, NOT_FOUND otherwise. RepositoryService is not part of
      this model; its lookup is taken to match both ids. */
  function GetRepository(db: Db, organisationId: string, repositoryId: string): (r: Result<RepositoryRow>)
    ensures r.Ok? <==> repositoryId in db.repositories && db.repositories[repositoryId].organisationId == organisationId
    ensures r.Ok? ==> r.value == db.repositories[repositoryId]
    ensures r.Fail? ==> r.status == NotFound
  {
    if repositoryId in db.repositories && db.repositories[repositoryId].organisationId == organisationId
    then Ok(db.repositories[repositoryId])
    else Fail(NotFound)
  }

  /** findByIdAndRepositoryId(id, repositoryId) finds a row. */
  predicate InRepository(db: Db, id: string, repositoryId: string) {
    id in db.entities && db.entities[id].repositoryId == repositoryId
  }

  /** findByEntityIdAndVersion(id, n): a version of entity `id` numbered `n`. */
  function VersionNumbered(db: Db, id: string, n: int): (r: Option<VersionKey>)
    ensures r.Some? ==> r.value in db.versions && db.versions[r.value].entityId == id && db.versions[r.value].version == n
    ensures r.None? ==> forall k :: k in db.versions ==> !(db.versions[k].entityId == id && db.versions[k].version == n)
  {
    var found := set k: int | 0 <= k && k in db.versions && db.versions[k].entityId == id && db.versions[k].version == n;
    assert forall k: VersionKey ::
      (k in db.versions && db.versions[k].entityId == id && db.versions[k].version == n) ==> k in found;
    LeastKey(found)
  }

  /** In a valid store each version is the one found by its entity and number. */
  lemma NumberedVersionIsUnique(db: Db, chains: map<string, seq<VersionKey>>, k: VersionKey)
    requires ValidDb(db, chains) && k in db.versions
    ensures VersionNumbered(db, db.versions[k].entityId, db.versions[k].version) == Some(k)
  {
    var found := VersionNumbered(db, db.versions[k].entityId, db.versions[k].version);
    NumbersUnique(db.repositories, db.entities, db.versions, db.nextKey, chains, found.value, k);
  }

  /** EntityVersionDao.toApiModel: the entity's fields with this version's
      number and texts. */
  function VersionToApi(db: Db, k: VersionKey): (r: EntityView)
    requires Consistent(db) && k in db.versions
    ensures db.versions[k].entityId in db.entities
    ensures r.id == db.versions[k].entityId && r.version == Some(db.versions[k].version)
    ensures r.titles == db.versions[k].titles && r.synonyms == db.versions[k].synonyms
    ensures r.descriptions == db.versions[k].descriptions
    ensures r.repositoryId == db.entities[r.id].repositoryId && r.entityType == db.entities[r.id].entityType
    ensures r.superEntities == db.entities[r.id].superEntities
  {
    var v := db.versions[k];
    var e := db.entities[v.entityId];
    EntityView(v.entityId, e.repositoryId, e.entityType, Some(v.version), v.titles, v.synonyms, v.descriptions,
               e.superEntities)
  }

  /** EntityDao.toApiModel: the entity with its current version, if it has one. */
  function EntityToApi(db: Db, id: string): (r: EntityView)
    requires Consistent(db) && id in db.entities
    ensures db.entities[id].current.Some? ==>
      db.entities[id].current.value in db.versions && r == VersionToApi(db, db.entities[id].current.value)
    ensures db.entities[id].current.None? ==>
      r == EntityView(id, db.entities[id].repositoryId, db.entities[id].entityType, None, [], [], [],
                      db.entities[id].superEntities)
    ensures r.id == id
  {
    var e := db.entities[id];
    match e.current
    case Some(k) => VersionToApi(db, k)
    case None => EntityView(id, e.repositoryId, e.entityType, None, [], [], [], e.superEntities)
  }

  /** The entities with the given ids, in order. */
  function Views(db: Db, ids: seq<string>): (r: seq<EntityView>)
    requires Consistent(db) && forall i :: 0 <= i < |ids| ==> ids[i] in db.entities
    ensures |r| == |ids| && forall i :: 0 <= i < |ids| ==> r[i] == EntityToApi(db, ids[i])
  {
    if ids == [] then [] else [EntityToApi(db, ids[0])] + Views(db, ids[1..])
  }

  /** loadEntity(organisationId, repositoryId, id, version): with no version the
      entity of the repository with its current version, otherwise that
      entity's version with the number; NOT_FOUND for an unknown repository,
      entity or version. */
  function LoadEntity(db: Db, organisationId: string, repositoryId: string, id: string, version: Option<int>)
    : (r: Result<EntityView>)
    requires Consistent(db)
    ensures r.Fail? ==> r.status == NotFound
    ensures r.Ok? <==>
      && GetRepository(db, organisationId, repositoryId).Ok?
      && InRepository(db, id, repositoryId)
      && (version.Some? ==> VersionNumbered(db, id, version.value).Some?)
    ensures r.Ok? && version.None? ==> r.value == EntityToApi(db, id)
    ensures r.Ok? && version.Some? ==>
      && r.value == VersionToApi(db, VersionNumbered(db, id, version.value).value)
      && r.value.id == id && r.value.version == version
  {
    if GetRepository(db, organisationId, repositoryId).Fail? then Fail(NotFound)
    else if !InRepository(db, id, repositoryId) then Fail(NotFound)
    else
      match version
      case None => Ok(EntityToApi(db, id))
      case Some(n) =>
        match VersionNumbered(db, id, n)
        case None => Fail(NotFound)
        case Some(k) => Ok(VersionToApi(db, k))
  }

  /** Loading without a version and loading the current version's number give
      the same entity. */
  lemma CurrentLoadsAsItsNumber(
    db: Db, chains: map<string, seq<VersionKey>>, organisationId: string, repositoryId: string, id: string)
    requires ValidDb(db, chains) && id in db.entities && db.entities[id].current.Some?
    ensures db.entities[id].current.value in db.versions
    ensures LoadEntity(db, organisationId, repositoryId, id, None)
         == LoadEntity(db, organisationId, repositoryId, id, Some(db.versions[db.entities[id].current.value].version))
  {
    NumberedVersionIsUnique(db, chains, db.entities[id].current.value);
  }

  /** The ids of the repository's entities that name `id` among their
      super-entities, by id. */
  function SubclassIds(db: Db, repositoryId: string, id: string): (r: seq<string>)
    ensures forall x :: x in r <==> InRepository(db, x, repositoryId) && id in db.entities[x].superEntities
    ensures forall i :: 0 <= i < |r| ==> r[i] in db.entities
    ensures forall i, j :: 0 <= i < j < |r| ==> StrLe(r[i], r[j]) && r[i] != r[j]
  {
    var r := OrderedStrings(set x | x in db.entities && db.entities[x].repositoryId == repositoryId
                                    && id in db.entities[x].superEntities);
    assert forall i :: 0 <= i < |r| ==> r[i] in r;
    r
  }

  /** getSubclasses(organisationId, repositoryId, id): the direct subclasses of
      `id` within the repository. */
  function GetSubclasses(db: Db, organisationId: string, repositoryId: string, id: string)
    : (r: Result<seq<EntityView>>)
    requires Consistent(db)
    ensures r.Fail? <==> GetRepository(db, organisationId, repositoryId).Fail?
    ensures r.Fail? ==> r.status == NotFound
    ensures r.Ok? ==>
      && |r.value| == |SubclassIds(db, repositoryId, id)|
      && forall i :: 0 <= i < |r.value| ==> r.value[i] == EntityToApi(db, SubclassIds(db, repositoryId, id)[i])
  {
    if GetRepository(db, organisationId, repositoryId).Fail? then Fail(NotFound)
    else Ok(Views(db, SubclassIds(db, repositoryId, id)))
  }

  /** The ids of the repository's entities without super-entities, by id. */
  function RootIds(db: Db, repositoryId: string): (r: seq<string>)
    ensures forall x :: x in r <==> InRepository(db, x, repositoryId) && db.entities[x].superEntities == []
    ensures forall i :: 0 <= i < |r| ==> r[i] in db.entities
    ensures forall i, j :: 0 <= i < j < |r| ==> StrLe(r[i], r[j]) && r[i] != r[j]
  {
    var r := OrderedStrings(set x | x in db.entities && db.entities[x].repositoryId == repositoryId
                                    && db.entities[x].superEntities == []);
    assert forall i :: 0 <= i < |r| ==> r[i] in r;
    r
  }

  /** getRootEntitiesByRepositoryId(organisationId, repositoryId, .., page): a
      page of the repository's root entities. A null page is the first page,
      page p is index p - 1, and PageRequest refuses a negative index. */
  function GetRootEntitiesByRepositoryId(db: Db, organisationId: string, repositoryId: string, page: Option<int>)
    : (r: Result<seq<EntityView>>)
    requires Consistent(db)
    ensures GetRepository(db, organisationId, repositoryId).Fail? ==> r == Fail(NotFound)
    ensures GetRepository(db, organisationId, repositoryId).Ok? && page.Some? && page.value < 1 ==>
      r == Fail(InternalServerError)
    ensures r.Ok? ==>
      var index := if page.None? then 0 else page.value - 1;
      index >= 0 && r.value == PageContent(Views(db, RootIds(db, repositoryId)), index)
    ensures GetRepository(db, organisationId, repositoryId).Ok? && (page.None? || page.value >= 1) ==> r.Ok?
  {
    if GetRepository(db, organisationId, repositoryId).Fail? then Fail(NotFound)
    else
      var index := if page.None? then 0 else page.value - 1;
      if index < 0 then Fail(InternalServerError)
      else Ok(PageContent(Views(db, RootIds(db, repositoryId)), index))
  }

  /** Without a page, the root entities start at the first one. */
  lemma NullPageIsFirstRootPage(db: Db, organisationId: string, repositoryId: string)
    requires Consistent(db) && GetRepository(db, organisationId, repositoryId).Ok?
    ensures GetRootEntitiesByRepositoryId(db, organisationId, repositoryId, None)
         == GetRootEntitiesByRepositoryId(db, organisationId, repositoryId, Some(1))
    ensures var roots := Views(db, RootIds(db, repositoryId));
      GetRootEntitiesByRepositoryId(db, organisationId, repositoryId, None)
      == Ok(if |roots| <= PageSize then roots else roots[..PageSize])
  {
  }

  /** The keys of the versions of entity `id`, when it lives in the repository,
      in key order. */
  function VersionKeys(db: Db, repositoryId: string, id: string): (r: seq<int>)
    ensures forall k :: k in r <==> k in db.versions && db.versions[k].entityId == id && InRepository(db, id, repositoryId)
    ensures forall i :: 0 <= i < |r| ==> r[i] in db.versions
    ensures forall i, j :: 0 <= i < j < |r| ==> r[i] < r[j]
  {
    var r := OrderedInts(set k: int | k in db.versions && db.versions[k].entityId == id && InRepository(db, id, repositoryId));
    assert forall i :: 0 <= i < |r| ==> r[i] in r;
    r
  }

  /** The versions with the given keys, in order. */
  function VersionViews(db: Db, keys: seq<int>): (r: seq<EntityView>)
    requires Consistent(db) && forall i :: 0 <= i < |keys| ==> keys[i] in db.versions
    ensures |r| == |keys| && forall i :: 0 <= i < |keys| ==> r[i] == VersionToApi(db, keys[i])
  {
    if keys == [] then [] else [VersionToApi(db, keys[0])] + VersionViews(db, keys[1..])
  }

  /** getVersions(organisationId, repositoryId, id): every version of the
      repository's entity `id`; none for an unknown entity. */
  function GetVersions(db: Db, organisationId: string, repositoryId: string, id: string)
    : (r: Result<seq<EntityView>>)
    requires Consistent(db)
    ensures r.Fail? <==> GetRepository(db, organisationId, repositoryId).Fail?
    ensures r.Fail? ==> r.status == NotFound
    ensures r.Ok? ==>
      && |r.value| == |VersionKeys(db, repositoryId, id)|
      && forall i :: 0 <= i < |r.value| ==> r.value[i] == VersionToApi(db, VersionKeys(db, repositoryId, id)[i])
  {
    if GetRepository(db, organisationId, repositoryId).Fail? then Fail(NotFound)
    else Ok(VersionViews(db, VersionKeys(db, repositoryId, id)))
  }

  /** Every listed version belongs to the entity and no number is listed twice. */
  lemma VersionsListedOnce(
    db: Db, chains: map<string, seq<VersionKey>>, organisationId: string, repositoryId: string, id: string)
    requires ValidDb(db, chains) && GetRepository(db, organisationId, repositoryId).Ok?
    ensures var listed := GetVersions(db, organisationId, repositoryId, id).value;
      && (forall i :: 0 <= i < |listed| ==> listed[i].id == id)
      && (forall i, j :: 0 <= i < j < |listed| ==> listed[i].version != listed[j].version)
  {
    var keys := VersionKeys(db, repositoryId, id);
    var listed := GetVersions(db, organisationId, repositoryId, id).value;
    forall i, j | 0 <= i < j < |listed| ensures listed[i].version != listed[j].version {
      assert keys[i] in keys && keys[j] in keys;
      if db.versions[keys[i]].version == db.versions[keys[j]].version {
        NumbersUnique(db.repositories, db.entities, db.versions, db.nextKey, chains, keys[i], keys[j]);
      }
    }
    forall i | 0 <= i < |listed| ensures listed[i].id == id {
      assert keys[i] in keys;
    }
  }

  // ------------------------------------------------------------ forking

  /** The forks that still exist, each with its repository's id and name. */
  function ForkViews(db: Db, forks: seq<string>): (r: seq<ForkView>)
    requires Consistent(db)
    ensures |r| <= |forks|
    ensures forall v :: v in r ==>
      v.id in forks && v.id in db.entities && v.repositoryId == db.entities[v.id].repositoryId
      && v.repositoryId in db.repositories && v.repositoryName == db.repositories[v.repositoryId].name
    ensures forall f :: f in forks && f in db.entities ==>
      ForkView(f, db.entities[f].repositoryId, db.repositories[db.entities[f].repositoryId].name) in r
  {
    if forks == [] then []
    else
      var rest := ForkViews(db, forks[1..]);
      assert forall f :: f in forks <==> f == forks[0] || f in forks[1..];
      var f := forks[0];
      if f in db.entities then
        [ForkView(f, db.entities[f].repositoryId, db.repositories[db.entities[f].repositoryId].name)] + rest
      else rest
  }

  /** getForkingStats(organisationId, repositoryId, id): the entity's origin with
      its current titles, when it has a current version, and its forks with
      their repositories; NOT_FOUND for an unknown repository or entity. */
  function GetForkingStats(db: Db, organisationId: string, repositoryId: string, id: string)
    : (r: Result<ForkingStats>)
    requires Consistent(db)
    ensures r.Fail? <==> GetRepository(db, organisationId, repositoryId).Fail? || !InRepository(db, id, repositoryId)
    ensures r.Fail? ==> r.status == NotFound
    ensures r.Ok? ==>
      var origin := db.entities[id].origin;
      && (r.value.origin.Some? <==>
            origin.Some? && origin.value in db.entities && db.entities[origin.value].current.Some?)
      && (r.value.origin.Some? ==>
            && db.entities[origin.value].current.value in db.versions
            && r.value.origin.value
               == OriginView(origin.value, db.versions[db.entities[origin.value].current.value].titles))
      && r.value.forks == ForkViews(db, db.entities[id].forks)
  {
    if GetRepository(db, organisationId, repositoryId).Fail? || !InRepository(db, id, repositoryId) then Fail(NotFound)
    else
      var e := db.entities[id];
      var origin :=
        if e.origin.Some? && e.origin.value in db.entities && db.entities[e.origin.value].current.Some? then
          var o := e.origin.value;
          Some(OriginView(o, db.versions[db.entities[o].current.value].titles))
        else None;
      Ok(ForkingStats(origin, ForkViews(db, e.forks)))
  }

  /** ApiModelMapper.isRestricted: the entity is a restriction. */
  predicate IsRestrictedView(entity: EntityView) {
    entity.entityType.Some? && IsRestricted(entity.entityType.value)
  }

  /** The entities createFork would copy: a restricted phenotype together with
      its super-phenotype, loaded first; otherwise the entity, followed by its
      direct subclasses when the fork cascades. The super-phenotype is the last
      super-entity, since createEntity links it after the super-categories. A
      restricted phenotype without a super-phenotype fails (the source
      dereferences null). */
  function ForkOrigins(db: Db, organisationId: string, repositoryId: string, entity: EntityView, cascade: bool)
    : (r: Result<seq<EntityView>>)
    requires Consistent(db) && GetRepository(db, organisationId, repositoryId).Ok?
    ensures IsRestrictedView(entity) ==>
      if entity.superEntities == [] then r == Fail(InternalServerError)
      else
        var super := LoadEntity(db, organisationId, repositoryId, entity.superEntities[|entity.superEntities| - 1], None);
        (super.Fail? ==> r == Fail(NotFound)) && (super.Ok? ==> r == Ok([super.value, entity]))
    ensures !IsRestrictedView(entity) ==>
      && r.Ok? && |r.value| >= 1 && r.value[0] == entity
      && (!cascade ==> r.value == [entity])
      && (cascade ==> r.value[1..] == GetSubclasses(db, organisationId, repositoryId, entity.id).value)
  {
    if IsRestrictedView(entity) then
      if entity.superEntities == [] then Fail(InternalServerError)
      else
        match LoadEntity(db, organisationId, repositoryId, entity.superEntities[|entity.superEntities| - 1], None)
        case Fail(s) => Fail(s)
        case Ok(super) => Ok([super, entity])
    else if cascade then
      Ok([entity] + GetSubclasses(db, organisationId, repositoryId, entity.id).value)
    else Ok([entity])
  }

  // ------------------------------------------------------------ latest version

  /** findByEntityIdAndNextVersionIsNull(id): a version of entity `id` that no
      version names as its previous one. */
  function LatestVersion(db: Db, id: string): (r: Option<VersionKey>)
    ensures r.Some? ==> IsLatest(db.versions, id, r.value)
    ensures r.None? ==> forall k :: !IsLatest(db.versions, id, k)
  {
    var latest := set k: int | 0 <= k && k in db.versions && IsLatest(db.versions, id, k);
    assert forall k: VersionKey :: IsLatest(db.versions, id, k) ==> k in latest;
    LeastKey(latest)
  }

  /** In a valid store the latest version is the last of the entity's chain,
      and an entity has none exactly when it has no version. */
  lemma LatestIsChainEnd(db: Db, chains: map<string, seq<VersionKey>>, id: string)
    requires ValidDb(db, chains) && id in db.entities
    ensures LatestVersion(db, id) == if chains[id] == [] then None else Some(chains[id][|chains[id]| - 1])
  {
    var r := LatestVersion(db, id);
    var chain := chains[id];
    if r.Some? {
      LatestIsLast(db.repositories, db.entities, db.versions, db.nextKey, chains, id, r.value);
    } else if chain != [] {
      LatestIsLast(db.repositories, db.entities, db.versions, db.nextKey, chains, id, chain[|chain| - 1]);
    }
  }

  /** The number updateEntityById gives a new version: the latest version's
      number plus one, or 0 when the entity has no latest version. */
  function NextNumber(db: Db, id: string): int {
    match LatestVersion(db, id)
    case None => 0
    case Some(k) => db.versions[k].version + 1
  }

  /** In a valid store the next number is above every number the entity has
      used, and is 0 only for an entity without versions. */
  lemma NextNumberIsFresh(db: Db, chains: map<string, seq<VersionKey>>, id: string)
    requires ValidDb(db, chains) && id in db.entities
    ensures forall j :: j in db.versions && db.versions[j].entityId == id ==> db.versions[j].version < NextNumber(db, id)
    ensures LatestVersion(db, id).None? <==> forall j :: j in db.versions ==> db.versions[j].entityId != id
  {
    LatestIsChainEnd(db, chains, id);
    var chain := chains[id];
    assert IsChain(db.versions, id, chain);
    forall j | j in db.versions && db.versions[j].entityId == id
      ensures db.versions[j].version < NextNumber(db, id)
    {
      assert RowsInChains(db.versions, chains);
      var m :| 0 <= m < |chain| && chain[m] == j;
      if m < |chain| - 1 { assert db.versions[chain[m]].version < db.versions[chain[|chain| - 1]].version; }
    }
    if chain != [] {
      assert chain[0] in db.versions && db.versions[chain[0]].entityId == id;
    }
  }

  /** The version that names `k` as its previous one, if any. */
  function Successor(db: Db, k: VersionKey): (r: Option<VersionKey>)
    ensures r.Some? ==> r.value in db.versions && db.versions[r.value].previous == Some(k)
    ensures r.None? ==> forall s :: s in db.versions ==> db.versions[s].previous != Some(k)
  {
    var next := set s: int | 0 <= s && s in db.versions && db.versions[s].previous == Some(k);
    assert forall s: VersionKey :: s in db.versions && db.versions[s].previous == Some(k) ==> s in next;
    LeastKey(next)
  }

  /** In a valid store the successor of the `i`-th version of a chain is the
      `i+1`-th, and the last version has none. */
  lemma SuccessorAt(db: Db, chains: map<string, seq<VersionKey>>, e: string, i: nat)
    requires ValidDb(db, chains) && e in chains && i < |chains[e]|
    ensures Successor(db, chains[e][i]) == if i + 1 < |chains[e]| then Some(chains[e][i + 1]) else None
  {
    var chain := chains[e];
    var r := Successor(db, chain[i]);
    if r.Some? {
      SuccessorIsNext(db.repositories, db.entities, db.versions, db.nextKey, chains, e, i, r.value);
    } else if i + 1 < |chain| {
      SuccessorIsNext(db.repositories, db.entities, db.versions, db.nextKey, chains, e, i, chain[i + 1]);
    }
  }

  // ------------------------------------------------------------ forks

  /** createFork(organisationId, repositoryId, id, instruction, ..): the
      same-repository and non-primary checks come before the destination is
      resolved; then the entity and its origin set are loaded. No entity is
      copied, so a fork that passes every check returns an empty list and
      changes nothing. */
  function CreateFork(db: Db, organisationId: string, repositoryId: string, id: string, instruction: ForkingInstruction)
    : (r: Result<seq<EntityView>>)
    requires Consistent(db)
    ensures repositoryId == instruction.repositoryId ==> r == Fail(NotAcceptable)
    ensures repositoryId != instruction.repositoryId && GetRepository(db, organisationId, repositoryId).Fail? ==>
      r == Fail(NotFound)
    ensures (repositoryId != instruction.repositoryId && GetRepository(db, organisationId, repositoryId).Ok?
             && !db.repositories[repositoryId].primary) ==> r == Fail(NotAcceptable)
    ensures (repositoryId != instruction.repositoryId && GetRepository(db, organisationId, repositoryId).Ok?
             && db.repositories[repositoryId].primary
             && GetRepository(db, instruction.organisationId, instruction.repositoryId).Fail?) ==> r == Fail(NotFound)
    ensures r.Ok? <==>
      && repositoryId != instruction.repositoryId
      && GetRepository(db, organisationId, repositoryId).Ok? && db.repositories[repositoryId].primary
      && GetRepository(db, instruction.organisationId, instruction.repositoryId).Ok?
      && LoadEntity(db, organisationId, repositoryId, id, None).Ok?
      && ForkOrigins(db, organisationId, repositoryId, LoadEntity(db, organisationId, repositoryId, id, None).value,
                     instruction.cascade).Ok?
    ensures r.Ok? ==> r.value == []
  {
    if repositoryId == instruction.repositoryId then Fail(NotAcceptable)
    else
      match GetRepository(db, organisationId, repositoryId)
      case Fail(s) => Fail(s)
      case Ok(origin) =>
        if !origin.primary then Fail(NotAcceptable)
        else if GetRepository(db, instruction.organisationId, instruction.repositoryId).Fail? then Fail(NotFound)
        else
          match LoadEntity(db, organisationId, repositoryId, id, None)
          case Fail(s) => Fail(s)
          case Ok(entity) =>
            match ForkOrigins(db, organisationId, repositoryId, entity, instruction.cascade)
            case Fail(s) => Fail(s)
            case Ok(_) => Ok([])
  }

  // ------------------------------------------------------------ what loading sees

  /** Two version rows that show the same in the API. */
  predicate SameText(a: VersionRow, b: VersionRow) {
    && a.entityId == b.entityId && a.version == b.version
    && a.titles == b.titles && a.synonyms == b.synonyms && a.descriptions == b.descriptions
  }

  /** Two tables that agree on the repositories and on the entity's row also
      agree on what loading the entity without a version gives. */
  lemma SameRowLoadsSame(db: Db, db': Db, organisationId: string, repositoryId: string, x: string)
    requires Consistent(db) && Consistent(db')
    requires db'.repositories == db.repositories
    requires (x in db'.entities <==> x in db.entities) && (x in db.entities ==> db'.entities[x] == db.entities[x])
    requires x in db.entities && db.entities[x].current.Some? ==>
      SameText(db'.versions[db.entities[x].current.value], db.versions[db.entities[x].current.value])
    ensures LoadEntity(db', organisationId, repositoryId, x, None) == LoadEntity(db, organisationId, repositoryId, x, None)
  {
  }

  /** Two tables that agree on the repositories, on the entity's fields and on
      its versions numbered `n` also agree on what loading version `n` gives. */
  lemma SameNumberLoadsSame(db: Db, db': Db, organisationId: string, repositoryId: string, x: string, n: int)
    requires Consistent(db) && Consistent(db')
    requires db'.repositories == db.repositories
    requires (x in db'.entities <==> x in db.entities)
    requires x in db.entities ==>
      && db'.entities[x].repositoryId == db.entities[x].repositoryId
      && db'.entities[x].entityType == db.entities[x].entityType
      && db'.entities[x].superEntities == db.entities[x].superEntities
    requires forall k :: (k in db'.versions && db'.versions[k].entityId == x && db'.versions[k].version == n)
                     <==> (k in db.versions && db.versions[k].entityId == x && db.versions[k].version == n)
    requires forall k :: k in db.versions && db.versions[k].entityId == x && db.versions[k].version == n ==>
      SameText(db'.versions[k], db.versions[k])
    ensures LoadEntity(db', organisationId, repositoryId, x, Some(n))
         == LoadEntity(db, organisationId, repositoryId, x, Some(n))
  {
    assert VersionNumbered(db', x, n) == VersionNumbered(db, x, n) by {
      var found := set k: int | 0 <= k && k in db.versions && db.versions[k].entityId == x && db.versions[k].version == n;
      var found' := set k: int | 0 <= k && k in db'.versions && db'.versions[k].entityId == x && db'.versions[k].version == n;
      assert found' == found;
    }
  }

  // ------------------------------------------------------------ createEntity

  /** The tables once createEntity has stored `data` in the repository: a new
      entity row whose only version, numbered 1, is current. */
  function WithNewEntity(db: Db, repositoryId: string, data: Entity): Db {
    var k := db.nextKey;
    Db(db.repositories,
       db.entities[data.id := EntityRow(repositoryId, data.entityType, Some(k),
                                        ExistingIn(db.entities, SuperIds(data), repositoryId), None, [])],
       db.versions[k := VersionRow(data.id, 1, None, data.titles, data.synonyms, data.descriptions)],
       k + 1)
  }

  /** Storing a new entity in a stored repository keeps the tables consistent. */
  lemma NewEntityConsistent(db: Db, repositoryId: string, data: Entity)
    requires Consistent(db) && repositoryId in db.repositories
    ensures Consistent(WithNewEntity(db, repositoryId, data))
  {
  }

  /** Storing a new entity keeps the invariant, its chain being its one version. */
  lemma NewEntityStaysValid(db: Db, chains: map<string, seq<VersionKey>>, repositoryId: string, data: Entity)
    requires ValidDb(db, chains) && data.id !in db.entities && repositoryId in db.repositories
    ensures ValidDb(WithNewEntity(db, repositoryId, data), chains[data.id := [db.nextKey]])
  {
    var db' := WithNewEntity(db, repositoryId, data);
    AddEntityStaysValid(db.repositories, db.entities, db.versions, db.nextKey, chains, data.id,
                        db'.entities[data.id], db'.versions[db.nextKey]);
    ValidIsConsistent(db', chains[data.id := [db.nextKey]]);
  }

  /** The new entity loads with version 1 and the data's texts, under no
      version and under version 1, and it has no other version. */
  lemma NewEntityLoads(
    db: Db, chains: map<string, seq<VersionKey>>, organisationId: string, repositoryId: string, data: Entity)
    requires ValidDb(db, chains) && data.id !in db.entities && GetRepository(db, organisationId, repositoryId).Ok?
    ensures Consistent(WithNewEntity(db, repositoryId, data))
    ensures var db' := WithNewEntity(db, repositoryId, data);
      var view := EntityView(data.id, repositoryId, data.entityType, Some(1), data.titles, data.synonyms,
                             data.descriptions, ExistingIn(db.entities, SuperIds(data), repositoryId));
      && LoadEntity(db', organisationId, repositoryId, data.id, None) == Ok(view)
      && LoadEntity(db', organisationId, repositoryId, data.id, Some(1)) == Ok(view)
  {
    var db' := WithNewEntity(db, repositoryId, data);
    NewEntityStaysValid(db, chains, repositoryId, data);
    NumberedVersionIsUnique(db', chains[data.id := [db.nextKey]], db.nextKey);
  }

  /** The new entity's only version is the one just stored. */
  lemma NewEntityHasOneVersion(db: Db, repositoryId: string, data: Entity)
    requires Consistent(db) && data.id !in db.entities
    ensures forall k :: k in VersionKeys(WithNewEntity(db, repositoryId, data), repositoryId, data.id) <==> k == db.nextKey
  {
    assert forall j :: j in db.versions ==> db.versions[j].entityId != data.id;
  }

  /** Every other entity loads as before. */
  lemma NewEntityLeavesOthers(
    db: Db, repositoryId: string, data: Entity, organisationId: string, rid: string, x: string)
    requires Consistent(db) && data.id !in db.entities && repositoryId in db.repositories && x != data.id
    ensures Consistent(WithNewEntity(db, repositoryId, data))
    ensures LoadEntity(WithNewEntity(db, repositoryId, data), organisationId, rid, x, None)
         == LoadEntity(db, organisationId, rid, x, None)
  {
    NewEntityConsistent(db, repositoryId, data);
    SameRowLoadsSame(db, WithNewEntity(db, repositoryId, data), organisationId, rid, x);
  }

  // ------------------------------------------------------------ updateEntityById

  /** The tables once updateEntityById has appended a version with the data's
      texts after the latest one, numbered NextNumber, and made it current. */
  function WithNewVersion(db: Db, id: string, data: Entity): Db
    requires id in db.entities
  {
    var k := db.nextKey;
    Db(db.repositories,
       db.entities[id := db.entities[id].(current := Some(k))],
       db.versions[k := VersionRow(id, NextNumber(db, id), LatestVersion(db, id), data.titles, data.synonyms,
                                   data.descriptions)],
       k + 1)
  }

  /** Appending a version keeps the tables consistent. */
  lemma NewVersionConsistent(db: Db, id: string, data: Entity)
    requires Consistent(db) && id in db.entities
    ensures Consistent(WithNewVersion(db, id, data))
  {
  }

  /** Appending a version keeps the invariant, the entity's chain growing by
      the new version. */
  lemma NewVersionStaysValid(db: Db, chains: map<string, seq<VersionKey>>, id: string, data: Entity)
    requires ValidDb(db, chains) && id in db.entities
    ensures ValidDb(WithNewVersion(db, id, data), chains[id := chains[id] + [db.nextKey]])
  {
    var db' := WithNewVersion(db, id, data);
    LatestIsChainEnd(db, chains, id);
    NextNumberIsFresh(db, chains, id);
    AppendVersionStaysValid(db.repositories, db.entities, db.versions, db.nextKey, chains, id, db'.versions[db.nextKey]);
    ValidIsConsistent(db', chains[id := chains[id] + [db.nextKey]]);
  }

  /** The entity then loads with the new version and the data's texts, and
      the new version is its latest. */
  lemma NewVersionLoads(
    db: Db, chains: map<string, seq<VersionKey>>, organisationId: string, repositoryId: string, id: string,
    data: Entity)
    requires ValidDb(db, chains) && GetRepository(db, organisationId, repositoryId).Ok?
    requires InRepository(db, id, repositoryId)
    ensures Consistent(WithNewVersion(db, id, data))
    ensures var db' := WithNewVersion(db, id, data);
      var e := db.entities[id];
      var view := EntityView(id, repositoryId, e.entityType, Some(NextNumber(db, id)), data.titles, data.synonyms,
                             data.descriptions, e.superEntities);
      && LoadEntity(db', organisationId, repositoryId, id, None) == Ok(view)
      && LoadEntity(db', organisationId, repositoryId, id, Some(NextNumber(db, id))) == Ok(view)
      && LatestVersion(db', id) == Some(db.nextKey)
  {
    var db' := WithNewVersion(db, id, data);
    var chains' := chains[id := chains[id] + [db.nextKey]];
    NewVersionStaysValid(db, chains, id, data);
    NumberedVersionIsUnique(db', chains', db.nextKey);
    LatestIsChainEnd(db', chains', id);
  }

  /** Every version the entity had loads as before. */
  lemma NewVersionKeepsHistory(
    db: Db, organisationId: string, repositoryId: string, id: string, data: Entity, n: int)
    requires Consistent(db) && id in db.entities && n != NextNumber(db, id)
    ensures Consistent(WithNewVersion(db, id, data))
    ensures LoadEntity(WithNewVersion(db, id, data), organisationId, repositoryId, id, Some(n))
         == LoadEntity(db, organisationId, repositoryId, id, Some(n))
  {
    NewVersionConsistent(db, id, data);
    SameNumberLoadsSame(db, WithNewVersion(db, id, data), organisationId, repositoryId, id, n);
  }

  // ------------------------------------------------------------ deleteVersion

  /** The tables once deleteVersion has removed version `k`: the version after
      it, if any, takes over its previous version. */
  function WithoutVersion(db: Db, k: VersionKey): Db
    requires k in db.versions
  {
    db.(versions := Unlink(db.versions, k, Successor(db, k)))
  }

  /** Removing a version changes no other version's number or texts. */
  lemma WithoutVersionKeepsText(db: Db, k: VersionKey)
    requires k in db.versions
    ensures forall j :: j in WithoutVersion(db, k).versions <==> j in db.versions && j != k
    ensures forall j :: j in WithoutVersion(db, k).versions ==> SameText(WithoutVersion(db, k).versions[j], db.versions[j])
  {
    var next := Successor(db, k);
    var after := WithoutVersion(db, k).versions;
    forall j | j in after ensures SameText(after[j], db.versions[j]) {
      if Some(j) == next && j != k {
        assert after[j] == db.versions[j].(previous := db.versions[k].previous);
      }
    }
  }

  /** Removing a version other than the current one keeps the invariant, the
      version leaving its entity's chain. */
  lemma VersionRemovalStaysValid(db: Db, chains: map<string, seq<VersionKey>>, id: string, i: nat)
    requires ValidDb(db, chains) && id in db.entities && i < |chains[id]|
    requires db.entities[id].current != Some(chains[id][i])
    ensures chains[id][i] in db.versions
    ensures ValidDb(WithoutVersion(db, chains[id][i]), chains[id := chains[id][..i] + chains[id][i + 1..]])
  {
    var chain := chains[id];
    assert IsChain(db.versions, id, chain);
    SuccessorAt(db, chains, id, i);
    var rest := chain[..i] + chain[i + 1..];
    var db' := WithoutVersion(db, chain[i]);
    DeleteVersionStaysValid(db.repositories, db.entities, db.versions, db.nextKey, chains, id, i, db'.versions, rest);
    ValidIsConsistent(db', chains[id := rest]);
  }

  /** The removed version no longer loads. */
  lemma VersionRemovalForgetsIt(
    db: Db, chains: map<string, seq<VersionKey>>, organisationId: string, repositoryId: string, id: string, n: int)
    requires ValidDb(db, chains) && id in db.entities && VersionNumbered(db, id, n).Some?
    requires db.entities[id].current != VersionNumbered(db, id, n)
    ensures Consistent(WithoutVersion(db, VersionNumbered(db, id, n).value))
    ensures LoadEntity(WithoutVersion(db, VersionNumbered(db, id, n).value), organisationId, repositoryId, id, Some(n)).Fail?
  {
    var k := VersionNumbered(db, id, n).value;
    assert RowsInChains(db.versions, chains);
    var i :| 0 <= i < |chains[id]| && chains[id][i] == k;
    VersionRemovalStaysValid(db, chains, id, i);
    RemovedNumberIsFree(db, chains, k);
    UnusedNumberFailsToLoad(WithoutVersion(db, k), organisationId, repositoryId, id, n);
  }

  /** A number no version of the entity carries does not load. */
  lemma UnusedNumberFailsToLoad(db: Db, organisationId: string, repositoryId: string, id: string, n: int)
    requires Consistent(db)
    requires forall j :: j in db.versions && db.versions[j].entityId == id ==> db.versions[j].version != n
    ensures LoadEntity(db, organisationId, repositoryId, id, Some(n)).Fail?
  {
    assert VersionNumbered(db, id, n).None?;
  }

  /** Once a version is removed, no version of its entity has its number. */
  lemma RemovedNumberIsFree(db: Db, chains: map<string, seq<VersionKey>>, k: VersionKey)
    requires ValidStore(db.repositories, db.entities, db.versions, db.nextKey, chains) && k in db.versions
    ensures forall j :: j in WithoutVersion(db, k).versions && WithoutVersion(db, k).versions[j].entityId == db.versions[k].entityId
                        ==> WithoutVersion(db, k).versions[j].version != db.versions[k].version
  {
    var db' := WithoutVersion(db, k);
    WithoutVersionKeepsText(db, k);
    forall j | j in db'.versions && db'.versions[j].entityId == db.versions[k].entityId
      ensures db'.versions[j].version != db.versions[k].version
    {
      if db.versions[j].version == db.versions[k].version {
        NumbersUnique(db.repositories, db.entities, db.versions, db.nextKey, chains, j, k);
      }
    }
  }

  /** The entity still loads with its current version. */
  lemma VersionRemovalKeepsCurrent(
    db: Db, chains: map<string, seq<VersionKey>>, organisationId: string, repositoryId: string, id: string, n: int)
    requires ValidDb(db, chains) && id in db.entities && VersionNumbered(db, id, n).Some?
    requires db.entities[id].current != VersionNumbered(db, id, n)
    ensures Consistent(WithoutVersion(db, VersionNumbered(db, id, n).value))
    ensures LoadEntity(WithoutVersion(db, VersionNumbered(db, id, n).value), organisationId, repositoryId, id, None)
         == LoadEntity(db, organisationId, repositoryId, id, None)
  {
    var k := VersionNumbered(db, id, n).value;
    assert RowsInChains(db.versions, chains);
    var i :| 0 <= i < |chains[id]| && chains[id][i] == k;
    VersionRemovalStaysValid(db, chains, id, i);
    WithoutVersionKeepsText(db, k);
    SameRowLoadsSame(db, WithoutVersion(db, k), organisationId, repositoryId, id);
  }

  /** Every other version, of this entity or another, loads as before. */
  lemma VersionRemovalKeepsOthers(
    db: Db, chains: map<string, seq<VersionKey>>, id: string, n: int, organisationId: string, repositoryId: string,
    x: string, m: int)
    requires ValidDb(db, chains) && id in db.entities && VersionNumbered(db, id, n).Some?
    requires db.entities[id].current != VersionNumbered(db, id, n)
    requires x != id || m != n
    ensures Consistent(WithoutVersion(db, VersionNumbered(db, id, n).value))
    ensures LoadEntity(WithoutVersion(db, VersionNumbered(db, id, n).value), organisationId, repositoryId, x, Some(m))
         == LoadEntity(db, organisationId, repositoryId, x, Some(m))
  {
    var k := VersionNumbered(db, id, n).value;
    assert RowsInChains(db.versions, chains);
    var i :| 0 <= i < |chains[id]| && chains[id][i] == k;
    VersionRemovalStaysValid(db, chains, id, i);
    WithoutVersionKeepsText(db, k);
    SameNumberLoadsSame(db, WithoutVersion(db, k), organisationId, repositoryId, x, m);
  }

  // ------------------------------------------------------------ setCurrentEntityVersion

  /** The tables once version `k` has been made the entity's current one. */
  function WithCurrent(db: Db, id: string, k: VersionKey): Db
    requires id in db.entities
  {
    db.(entities := db.entities[id := db.entities[id].(current := Some(k))])
  }

  /** Making one of the entity's own versions current keeps the invariant. */
  lemma CurrentChangeStaysValid(db: Db, chains: map<string, seq<VersionKey>>, id: string, k: VersionKey)
    requires ValidDb(db, chains) && id in db.entities && k in db.versions && db.versions[k].entityId == id
    ensures ValidDb(WithCurrent(db, id, k), chains)
  {
    assert RowsInChains(db.versions, chains);
    var db' := WithCurrent(db, id, k);
    StoreFromParts(db'.repositories, db'.entities, db'.versions, db'.nextKey, chains);
  }

  /** The entity then loads, without a version, as the chosen version did. */
  lemma CurrentChangeLoads(
    db: Db, chains: map<string, seq<VersionKey>>, organisationId: string, repositoryId: string, id: string, n: int)
    requires ValidDb(db, chains) && GetRepository(db, organisationId, repositoryId).Ok?
    requires InRepository(db, id, repositoryId) && VersionNumbered(db, id, n).Some?
    ensures Consistent(WithCurrent(db, id, VersionNumbered(db, id, n).value))
    ensures LoadEntity(WithCurrent(db, id, VersionNumbered(db, id, n).value), organisationId, repositoryId, id, None)
         == LoadEntity(db, organisationId, repositoryId, id, Some(n))
  {
    CurrentChangeStaysValid(db, chains, id, VersionNumbered(db, id, n).value);
  }

  /** Every version still loads as before. */
  lemma CurrentChangeKeepsVersions(
    db: Db, chains: map<string, seq<VersionKey>>, id: string, k: VersionKey, organisationId: string,
    repositoryId: string, x: string, m: int)
    requires ValidDb(db, chains) && id in db.entities && k in db.versions && db.versions[k].entityId == id
    ensures Consistent(WithCurrent(db, id, k))
    ensures LoadEntity(WithCurrent(db, id, k), organisationId, repositoryId, x, Some(m))
         == LoadEntity(db, organisationId, repositoryId, x, Some(m))
  {
    CurrentChangeStaysValid(db, chains, id, k);
    SameNumberLoadsSame(db, WithCurrent(db, id, k), organisationId, repositoryId, x, m);
  }

  // ------------------------------------------------------------ deleteEntity

  /** The tables once deleteEntity has removed the entity with its versions. */
  function WithoutEntity(db: Db, id: string): Db {
    Db(db.repositories, Without(db.entities, id), VersionsWithout(db.versions, id), db.nextKey)
  }

  /** Removing an entity with its versions keeps the invariant. */
  lemma EntityRemovalStaysValid(db: Db, chains: map<string, seq<VersionKey>>, id: string)
    requires ValidDb(db, chains)
    ensures ValidDb(WithoutEntity(db, id), Without(chains, id))
  {
    var db' := WithoutEntity(db, id);
    DropEntityStaysValid(db.repositories, db.entities, db.versions, db.nextKey, chains, id,
                         db'.entities, db'.versions, Without(chains, id));
    ValidIsConsistent(db', Without(chains, id));
  }

  /** The removed entity no longer loads under any version, and every other
      entity loads as before. */
  lemma EntityRemovalLoads(
    db: Db, chains: map<string, seq<VersionKey>>, id: string, organisationId: string, repositoryId: string,
    x: string, version: Option<int>)
    requires ValidDb(db, chains)
    ensures Consistent(WithoutEntity(db, id))
    ensures LoadEntity(WithoutEntity(db, id), organisationId, repositoryId, id, version).Fail?
    ensures x != id ==>
      LoadEntity(WithoutEntity(db, id), organisationId, repositoryId, x, version)
      == LoadEntity(db, organisationId, repositoryId, x, version)
  {
    EntityRemovalStaysValid(db, chains, id);
    if x != id {
      if version.None? {
        SameRowLoadsSame(db, WithoutEntity(db, id), organisationId, repositoryId, x);
      } else {
        SameNumberLoadsSame(db, WithoutEntity(db, id), organisationId, repositoryId, x, version.value);
      }
    }
  }

  // ------------------------------------------------------------ the store

  /** The JPA store: the repository, entity and version tables, and the
      service operations that change them. */
  class EntityStore {
    /** The repository, entity and version tables. */
    var tables: Db

    /** References between the tables resolve; every operation keeps this, and
        the lemmas above show that each also keeps the version chains. */
    ghost predicate Valid()
      reads this
    {
      Consistent(tables)
    }

    /** A store with the given repositories and no entity. */
    constructor (repositories: map<string, RepositoryRow>)
      ensures tables == Db(repositories, map[], map[], 0)
      ensures Valid() && ValidDb(tables, map[])
    {
      tables := Db(repositories, map[], map[], 0);
    }

    /** The ids among `ids` that name an entity of the repository, looked up one
        by one as the super-categories or the super-phenotype are. */
    method LinkedSuperEntities(ids: seq<string>, repositoryId: string) returns (linked: seq<string>)
      ensures linked == ExistingIn(tables.entities, ids, repositoryId)
    {
      linked := [];
      var i := 0;
      while i < |ids|
        invariant 0 <= i <= |ids|
        invariant linked == ExistingIn(tables.entities, ids[..i], repositoryId)
      {
        assert ids[..i + 1][..i] == ids[..i];
        if ids[i] in tables.entities && tables.entities[ids[i]].repositoryId == repositoryId {
          linked := linked + [ids[i]];
        }
        i := i + 1;
      }
      assert ids[..i] == ids;
    }

    /** createEntity(organisationId, repositoryId, data): CONFLICT for an id in
        use anywhere, checked before the repository; NOT_FOUND for an unknown
        repository; BAD_REQUEST without an entity type. Otherwise the entity is
        stored with one version, numbered 1 and current, linked to those of its
        super-entities that exist in the repository, and returned as loaded. */
    method CreateEntity(organisationId: string, repositoryId: string, data: Entity) returns (r: Result<EntityView>)
      requires Valid()
      modifies this
      ensures Valid()
      ensures data.id in old(tables.entities) ==> r == Fail(Conflict)
      ensures data.id !in old(tables.entities) && GetRepository(old(tables), organisationId, repositoryId).Fail? ==>
        r == Fail(NotFound)
      ensures (data.id !in old(tables.entities) && GetRepository(old(tables), organisationId, repositoryId).Ok?
               && data.entityType.None?) ==> r == Fail(BadRequest)
      ensures r.Fail? ==> tables == old(tables)
      ensures r.Ok? ==>
        && tables == WithNewEntity(old(tables), repositoryId, data)
        && r == LoadEntity(tables, organisationId, repositoryId, data.id, None)
    {
      if data.id in tables.entities {
        return Fail(Conflict);
      }
      if GetRepository(tables, organisationId, repositoryId).Fail? {
        return Fail(NotFound);
      }
      if data.entityType.None? {
        return Fail(BadRequest);
      }
      var supers := LinkedSuperEntities(SuperIds(data), repositoryId);
      var k := tables.nextKey;
      var after := Db(tables.repositories,
                      tables.entities[data.id := EntityRow(repositoryId, data.entityType, Some(k), supers, None, [])],
                      tables.versions[k := VersionRow(data.id, 1, None, data.titles, data.synonyms, data.descriptions)],
                      k + 1);
      NewEntityConsistent(tables, repositoryId, data);
      tables := after;
      r := Ok(EntityToApi(after, data.id));
    }

    /** updateEntityById(organisationId, repositoryId, id, data): NOT_FOUND for
        an unknown repository or an entity not in it; otherwise a new version
        with the data's texts is appended after the latest one, numbered one
        above it (0 when there is none), made current and returned as loaded. */
    method UpdateEntityById(organisationId: string, repositoryId: string, id: string, data: Entity)
      returns (r: Result<EntityView>)
      requires Valid()
      modifies this
      ensures Valid()
      ensures r.Fail? <==>
        GetRepository(old(tables), organisationId, repositoryId).Fail? || !InRepository(old(tables), id, repositoryId)
      ensures r.Fail? ==> r == Fail(NotFound) && tables == old(tables)
      ensures r.Ok? ==>
        && tables == WithNewVersion(old(tables), id, data)
        && r == LoadEntity(tables, organisationId, repositoryId, id, None)
    {
      if GetRepository(tables, organisationId, repositoryId).Fail? || !InRepository(tables, id, repositoryId) {
        return Fail(NotFound);
      }
      var latest := LatestVersion(tables, id);
      var n := NextNumber(tables, id);
      var k := tables.nextKey;
      var after := Db(tables.repositories,
                      tables.entities[id := tables.entities[id].(current := Some(k))],
                      tables.versions[k := VersionRow(id, n, latest, data.titles, data.synonyms, data.descriptions)],
                      k + 1);
      NewVersionConsistent(tables, id, data);
      tables := after;
      r := Ok(EntityToApi(after, id));
    }

    /** deleteVersion(organisationId, repositoryId, id, version): NOT_FOUND for
        an unknown repository, a missing version, a version of an entity in
        another repository or an entity without a current version;
        NOT_ACCEPTABLE for the current version. Otherwise the version is removed
        and the version after it, if any, takes over its previous version. */
    method DeleteVersion(organisationId: string, repositoryId: string, id: string, version: Option<int>)
      returns (r: Result<()>)
      requires Valid()
      modifies this
      ensures Valid()
      ensures r.Fail? ==> tables == old(tables)
      ensures GetRepository(old(tables), organisationId, repositoryId).Fail? || version.None? ==> r == Fail(NotFound)
      ensures GetRepository(old(tables), organisationId, repositoryId).Ok? && version.Some? ==>
        var found := VersionNumbered(old(tables), id, version.value);
        && (found.None? ==> r == Fail(NotFound))
        && (found.Some? ==>
              var e := old(tables).entities[id];
              && (e.repositoryId != repositoryId || e.current.None? ==> r == Fail(NotFound))
              && (e.repositoryId == repositoryId && e.current == found ==> r == Fail(NotAcceptable))
              && (e.repositoryId == repositoryId && e.current.Some? && e.current != found ==>
                    r == Ok(()) && tables == WithoutVersion(old(tables), found.value)))
    {
      if GetRepository(tables, organisationId, repositoryId).Fail? || version.None? {
        return Fail(NotFound);
      }
      var found := VersionNumbered(tables, id, version.value);
      if found.None? {
        return Fail(NotFound);
      }
      var k := found.value;
      if tables.entities[id].repositoryId != repositoryId || tables.entities[id].current.None? {
        return Fail(NotFound);
      }
      if tables.entities[id].current == Some(k) {
        return Fail(NotAcceptable);
      }
      var after := tables.(versions := Unlink(tables.versions, k, Successor(tables, k)));
      tables := after;
      r := Ok(());
    }

    /** setCurrentEntityVersion(organisationId, repositoryId, id, version, ..):
        NOT_FOUND for an unknown repository, an entity not in it or a version
        number the entity does not have; otherwise that version becomes
        current and the entity is returned as loaded. */
    method SetCurrentEntityVersion(organisationId: string, repositoryId: string, id: string, version: Option<int>)
      returns (r: Result<EntityView>)
      requires Valid()
      modifies this
      ensures Valid()
      ensures r.Ok? <==>
        && GetRepository(old(tables), organisationId, repositoryId).Ok? && InRepository(old(tables), id, repositoryId)
        && version.Some? && VersionNumbered(old(tables), id, version.value).Some?
      ensures r.Fail? ==> r == Fail(NotFound) && tables == old(tables)
      ensures r.Ok? ==>
        && tables == WithCurrent(old(tables), id, VersionNumbered(old(tables), id, version.value).value)
        && r == LoadEntity(tables, organisationId, repositoryId, id, None)
    {
      if GetRepository(tables, organisationId, repositoryId).Fail? || !InRepository(tables, id, repositoryId) {
        return Fail(NotFound);
      }
      if version.None? {
        return Fail(NotFound);
      }
      var found := VersionNumbered(tables, id, version.value);
      if found.None? {
        return Fail(NotFound);
      }
      var after := tables.(entities := tables.entities[id := tables.entities[id].(current := found)]);
      tables := after;
      r := Ok(EntityToApi(after, id));
    }

    /** deleteEntity(organisationId, repositoryId, id): NOT_FOUND for an
        unknown repository or an entity not in it; otherwise the entity is
        removed together with its versions. */
    method DeleteEntity(organisationId: string, repositoryId: string, id: string) returns (r: Result<()>)
      requires Valid()
      modifies this
      ensures Valid()
      ensures r.Ok? <==>
        GetRepository(old(tables), organisationId, repositoryId).Ok? && InRepository(old(tables), id, repositoryId)
      ensures r.Fail? ==> r == Fail(NotFound) && tables == old(tables)
      ensures r.Ok? ==> tables == WithoutEntity(old(tables), id)
    {
      if GetRepository(tables, organisationId, repositoryId).Fail? || !InRepository(tables, id, repositoryId) {
        return Fail(NotFound);
      }
      tables := Db(tables.repositories, tables.entities - {id}, VersionsWithout(tables.versions, id), tables.nextKey);
      r := Ok(());
    }
  }
}
