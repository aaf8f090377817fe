# top-backend entity store, in Dafny

This project models the core of the TOP back end. TOP is a service that manages
ontologies: categories and phenotypes organised in repositories and directories,
each entity with a history of numbered versions. There are two drafts of the
versioned entity store, and each is modelled with its own behaviour:

- **JPA entity service.** A relational store of repositories, entities and entity
  versions (`jpa_entity_service.dfy`):
  - each version names its previous version; the entity points at its current
    version;
  - super-entity links are scoped to the repository, and there are origin/fork
    links;
  - the tables are one value `Db`, held in the class `EntityStore` whose methods
    are the service's state-changing operations;
  - the queries are functions over `Db`;
  - the service's promises are lemmas about the specification functions
    `WithNewEntity`, `WithNewVersion`, `WithoutVersion`, `WithCurrent` and
    `WithoutEntity`, which the methods are proved to implement.

  A ghost map of per-entity *chains* witnesses that the previous links of each
  entity's versions form one list, from the first version to the latest, with
  strictly increasing numbers. The chain lemmas prove that:
  - the latest version (the one nobody names as previous) is the chain's end;
  - the successor of a version is unique;
  - every operation keeps the chains.
- **Neo4j entity service.** A graph of class nodes, class-version nodes, annotation
  trees, expressions, `CURRENT_VERSION` and `IS_SUBCLASS_OF` edges, and
  `BELONGS_TO` edges between repositories and directories (`graph.dfy`,
  `resource_entity_service.dfy`).
  - The graph is a class `Graph` whose invariant every operation keeps.
  - Creating and updating go through "create a version numbered by
    `getNextVersion` and make it current".
  - Soft delete hides a version.
  - Permanent delete removes the version, its whole annotation tree (the
    recursive `deleteAnnotations`, proved against a descendant relation) and
    its expressions.
- **Cypher queries.** The class repository (`class_repository.dfy`) and the
  repository repository (`repository_repository.dfy`):
  - next version number = max + 1, or 1;
  - `setCurrent`;
  - repository-scoped subclasses ordered by index, and root classes;
  - containment of a repository in a directory, as reachability over one or more
    `BELONGS_TO` edges, computed as a closure and proved equal to path existence.
- **Supporting pieces:**
  - the typed `Annotation` value cell (`annotation.dfy`);
  - the organisation tree with its permissions (`organisation_service.dfy`);
  - the `Directory` node (`directory.dfy`);
  - the NLP concept list (`concept_service.dfy`);
  - the data-source listing of the phenotype query service
    (`phenotype_query_service.dfy`).
- **Shared modules:**
  - outcomes: HTTP statuses as `Result`, Java's null as `Option`
    (`outcomes.dfy`);
  - the API entity (`api_model.dfy`);
  - Spring paging (`paging.dfy`);
  - a stable sort, string order and ordered listings of finite sets
    (`sorting.dfy`).

How the Java maps to the model:
- A thrown `ResponseStatusException` is a `Fail(status)` result that leaves the
  state unchanged.
- A `NullPointerException` or another runtime exception is `Fail(InternalServerError)`.
- Persistence is in-memory maps and sets.
- Rows a repository returns in no stated order are listed in a fixed order:
  entities by id (`String.compareTo`), versions by primary key.

## Model

| member | source | states |
|---|---|---|
| Paging.PageContent | src/main/java/care/smith/top/backend/service/EntityService.java:360-364 | the page holds at most PageSize rows; row k is row index*PageSize+k of the whole list; a full page when enough rows remain; empty past the end |
| ApiModel.SuperIds | src/main/java/care/smith/top/backend/service/EntityService.java:61-70 | a Category or Phenotype yields its super-category ids in order; a Phenotype then yields its super-phenotype id last; a plain entity yields none |
| Sorting.Insert | resource-server/src/main/java/care/smith/top/backend/resource/service/PhenotypeQueryService.java:44 | inserting into a sorted list keeps it sorted and adds exactly the element (multiset) |
| Sorting.SortBy | resource-server/src/main/java/care/smith/top/backend/resource/service/PhenotypeQueryService.java:44 | the result is a sorted permutation of the input, of the same length |
| Sorting.SortBySortedIsIdentity | resource-server/src/main/java/care/smith/top/backend/resource/service/PhenotypeQueryService.java:54 | sorting an already sorted list returns it unchanged (the stable sort moves nothing) |
| Sorting.StrLeTotal | resource-server/src/main/java/care/smith/top/backend/resource/service/PhenotypeQueryService.java:44 | String.compareTo order is total |
| Sorting.StrLeTrans | resource-server/src/main/java/care/smith/top/backend/resource/service/PhenotypeQueryService.java:44 | String.compareTo order is transitive |
| Sorting.StrLeAntisymmetric | resource-server/src/main/java/care/smith/top/backend/resource/service/PhenotypeQueryService.java:44 | two strings each at most the other are equal |
| Sorting.OrderedStrings | src/main/java/care/smith/top/backend/service/EntityService.java:362 | a set of ids listed once each, in strictly ascending string order, exactly the set's members |
| Sorting.OrderedInts | src/main/java/care/smith/top/backend/service/EntityService.java:378 | a set of keys listed once each, strictly ascending, exactly the set's members |
| Sorting.LeastStringExists | src/main/java/care/smith/top/backend/service/EntityService.java:362 | a non-empty finite set of strings has a least element |
| Sorting.LeastIntExists | src/main/java/care/smith/top/backend/service/EntityService.java:378 | a non-empty finite set of numbers has a least element |
| OntologyGraph.NewVersionStaysValid | resource-server/src/main/java/care/smith/top/backend/resource/service/EntityService.java:43 | adding a version node of an existing class under a fresh id, with a number new for the class, keeps the graph invariant |
| OntologyGraph.NewAnnotationStaysValid | resource-server/src/main/java/care/smith/top/backend/resource/service/EntityService.java:139-155 | attaching an annotation node to an existing version keeps the graph invariant |
| OntologyGraph.FewerAnnotationsStayValid | resource-server/src/main/java/care/smith/top/backend/resource/service/EntityService.java:128-131 | removing annotations keeps the invariant when no remaining annotation loses its owner |
| OntologyGraph.RemoveVersionStaysValid | resource-server/src/main/java/care/smith/top/backend/resource/service/EntityService.java:99-102 | deleting a version with its CURRENT_VERSION edges and expressions keeps the invariant once no annotation hangs off it |
| OntologyGraph.HideStaysValid | resource-server/src/main/java/care/smith/top/backend/resource/service/EntityService.java:104 | hiding a version keeps the invariant |
| OntologyGraph.DetachVersion | resource-server/src/main/java/care/smith/top/backend/resource/service/EntityService.java:102 | exactly the CURRENT_VERSION edges not pointing at the deleted version remain |
| OntologyGraph.ExpressionsWithout | resource-server/src/main/java/care/smith/top/backend/resource/service/EntityService.java:101 | exactly the expressions not owned by the deleted version remain |
| OntologyGraph.CurrentVersion | resource-server/src/main/java/care/smith/top/backend/resource/service/EntityService.java:92 | the class's current version exists iff it has a CURRENT_VERSION edge, and it is that edge's target |
| OntologyGraph.VersionNumbered | resource-server/src/main/java/care/smith/top/backend/resource/service/EntityService.java:76 | the version of the class with that number, or none when no version of the class has it |
| ClassRepository.ByIndexIsTotalPreorder | neo4j-ontology-access/src/main/java/care/smith/top/backend/neo4j_ontology_access/repository/ClassRepository.java:18 | ORDER BY sub.index with nulls last is a total preorder |
| ClassRepository.SubclassRows | neo4j-ontology-access/src/main/java/care/smith/top/backend/neo4j_ontology_access/repository/ClassRepository.java:17 | a class appears iff a matching IS_SUBCLASS_OF relation (owned by repositoryId, into the existing class, from an existing class) has it as subclass |
| ClassRepository.SubclassRowsSingle | neo4j-ontology-access/src/main/java/care/smith/top/backend/neo4j_ontology_access/repository/ClassRepository.java:17 | one relation gives exactly one row, its subclass, when it matches, and none otherwise |
| ClassRepository.SubclassRowsAppend | neo4j-ontology-access/src/main/java/care/smith/top/backend/neo4j_ontology_access/repository/ClassRepository.java:16-17 | rows are produced relation by relation: one row per matching relation, in relation order, duplicates included |
| ClassRepository.FindSubclasses | neo4j-ontology-access/src/main/java/care/smith/top/backend/neo4j_ontology_access/repository/ClassRepository.java:16-20 | exactly the subclasses whose relation to the class is owned by repositoryId, as a permutation of the matched rows sorted by index |
| ClassRepository.FindRootClassesByRepository | neo4j-ontology-access/src/main/java/care/smith/top/backend/neo4j_ontology_access/repository/ClassRepository.java:22-26 | only classes of the store are returned |
| ClassRepository.FindByIdAndRepositoryId | neo4j-ontology-access/src/main/java/care/smith/top/backend/neo4j_ontology_access/repository/ClassRepository.java:28 | a class is returned iff both the id and the repositoryId match |
| ClassRepository.RootIsNoSubclass | neo4j-ontology-access/src/main/java/care/smith/top/backend/neo4j_ontology_access/repository/ClassRepository.java:22-26 | a root class is found in its repository and is nobody's subclass under any owner |
| ClassRepository.NoSubclassIsRoot | neo4j-ontology-access/src/main/java/care/smith/top/backend/neo4j_ontology_access/repository/ClassRepository.java:22-26 | conversely a class of the repository that is nobody's subclass is a root |
| ClassRepository.MaxExists | neo4j-ontology-access/src/main/java/care/smith/top/backend/neo4j_ontology_access/repository/ClassRepository.java:41 | a non-empty finite set of numbers has a greatest element |
| ClassRepository.GetNextVersion | neo4j-ontology-access/src/main/java/care/smith/top/backend/neo4j_ontology_access/repository/ClassRepository.java:30-43 | above every version number of the class; max + 1 when the class has versions; 1 for a missing class or one without versions |
| ClassRepository.NextVersionAfterAppend | neo4j-ontology-access/src/main/java/care/smith/top/backend/neo4j_ontology_access/repository/ClassRepository.java:38-43 | after adding the version it numbered, getNextVersion moves on by exactly one |
| ClassRepository.NextVersionIsUnused | neo4j-ontology-access/src/main/java/care/smith/top/backend/neo4j_ontology_access/repository/ClassRepository.java:40-42 | a version numbered by getNextVersion never clashes with a number of its class |
| ClassRepository.SetCurrent | neo4j-ontology-access/src/main/java/care/smith/top/backend/neo4j_ontology_access/repository/ClassRepository.java:45-52 | with an existing, non-hidden version the class has exactly one CURRENT_VERSION edge, to that version, and other classes keep theirs; otherwise nothing changes |
| RepositoryRepository.Closure | neo4j-ontology-access/src/main/java/care/smith/top/backend/neo4j_ontology_access/repository/RepositoryRepository.java:25 | the least superset closed under BELONGS_TO steps |
| RepositoryRepository.FindByIdAndSuperDirectoryId | neo4j-ontology-access/src/main/java/care/smith/top/backend/neo4j_ontology_access/repository/RepositoryRepository.java:24-29 | a result is only ever the repository with id repositoryId |
| RepositoryRepository.ClosureSound | neo4j-ontology-access/src/main/java/care/smith/top/backend/neo4j_ontology_access/repository/RepositoryRepository.java:25 | everything the closure adds is reachable |
| RepositoryRepository.ClosedHoldsReach | neo4j-ontology-access/src/main/java/care/smith/top/backend/neo4j_ontology_access/repository/RepositoryRepository.java:25 | a closed set holding the direct containers holds every reachable node |
| RepositoryRepository.AboveIsReachable | neo4j-ontology-access/src/main/java/care/smith/top/backend/neo4j_ontology_access/repository/RepositoryRepository.java:25 | the computed set is exactly the nodes reachable over one or more BELONGS_TO edges |
| RepositoryRepository.FoundIffPath | neo4j-ontology-access/src/main/java/care/smith/top/backend/neo4j_ontology_access/repository/RepositoryRepository.java:13-29 | found iff both nodes exist and a path of length at least 1 leads from the repository to the directory |
| RepositoryRepository.DirectMembershipFound | neo4j-ontology-access/src/main/java/care/smith/top/backend/neo4j_ontology_access/repository/RepositoryRepository.java:25 | a direct BELONGS_TO edge is enough |
| RepositoryRepository.ReachStep | neo4j-ontology-access/src/main/java/care/smith/top/backend/neo4j_ontology_access/repository/RepositoryRepository.java:25 | one more step extends a path by one |
| RepositoryRepository.ReachTrans | neo4j-ontology-access/src/main/java/care/smith/top/backend/neo4j_ontology_access/repository/RepositoryRepository.java:25 | paths compose |
| RepositoryRepository.TransitiveMembershipFound | neo4j-ontology-access/src/main/java/care/smith/top/backend/neo4j_ontology_access/repository/RepositoryRepository.java:25 | containment is transitive through an intermediate directory |
| RepositoryRepository.NoPathNotFound | neo4j-ontology-access/src/main/java/care/smith/top/backend/neo4j_ontology_access/repository/RepositoryRepository.java:22-29 | without a path the result is empty |
| Annotations.ValueOf | neo4j-ontology-access/src/main/java/care/smith/top/backend/neo4j_ontology_access/model/Annotation.java:107-121 | a null tag throws; each of the five known tags returns its own field, null when that field is null; any other tag gives null |
| Annotations.ValueMatchesTag | neo4j-ontology-access/src/main/java/care/smith/top/backend/neo4j_ontology_access/model/Annotation.java:107-121 | a non-null value implies one of the five known tags |
| Annotations.Annotation.GetValue | neo4j-ontology-access/src/main/java/care/smith/top/backend/neo4j_ontology_access/model/Annotation.java:107-121 | getValue is ValueOf of the annotation's current fields: it fails exactly for a null tag, and an unknown tag gives null |
| Annotations.Annotation.Empty | neo4j-ontology-access/src/main/java/care/smith/top/backend/neo4j_ontology_access/model/Annotation.java:30 | every field null, and getValue throws |
| Annotations.Annotation.OfString | neo4j-ontology-access/src/main/java/care/smith/top/backend/neo4j_ontology_access/model/Annotation.java:36-40 | tag "string", property as only label, language and index stored, getValue returns the string |
| Annotations.Annotation.OfInstant | neo4j-ontology-access/src/main/java/care/smith/top/backend/neo4j_ontology_access/model/Annotation.java:46-50 | tag "date_time", getValue returns the instant |
| Annotations.Annotation.OfLocalDateTime | neo4j-ontology-access/src/main/java/care/smith/top/backend/neo4j_ontology_access/model/Annotation.java:56-60 | tag "date_time", the value converted at UTC |
| Annotations.Annotation.OfNumber | neo4j-ontology-access/src/main/java/care/smith/top/backend/neo4j_ontology_access/model/Annotation.java:66-70 | tag "number", getValue returns the number |
| Annotations.Annotation.OfBoolean | neo4j-ontology-access/src/main/java/care/smith/top/backend/neo4j_ontology_access/model/Annotation.java:76-80 | as written: tag "number", booleanValue set, getValue returns null |
| Annotations.Annotation.OfBooleanIntended | neo4j-ontology-access/src/main/java/care/smith/top/backend/neo4j_ontology_access/model/Annotation.java:76-80 | tag "boolean", getValue returns the boolean |
| Annotations.Annotation.OfClass | neo4j-ontology-access/src/main/java/care/smith/top/backend/neo4j_ontology_access/model/Annotation.java:86-90 | tag "class", getValue returns the class |
| Annotations.Annotation.OfDatatype | neo4j-ontology-access/src/main/java/care/smith/top/backend/neo4j_ontology_access/model/Annotation.java:98-101 | only property, label and tag set; getValue null for a non-null tag |
| Annotations.Annotation.SetProperty | neo4j-ontology-access/src/main/java/care/smith/top/backend/neo4j_ontology_access/model/Annotation.java:146-150 | the property is set and the dynamic labels become exactly {property}; nothing else changes |
| Annotations.Annotation.SetDatatype | neo4j-ontology-access/src/main/java/care/smith/top/backend/neo4j_ontology_access/model/Annotation.java:128-131 | only the tag changes |
| Annotations.Annotation.SetStringValue | neo4j-ontology-access/src/main/java/care/smith/top/backend/neo4j_ontology_access/model/Annotation.java:156-159 | only the string value changes |
| Annotations.Annotation.SetDateValue | neo4j-ontology-access/src/main/java/care/smith/top/backend/neo4j_ontology_access/model/Annotation.java:165-168 | only the date value changes |
| Annotations.Annotation.SetNumberValue | neo4j-ontology-access/src/main/java/care/smith/top/backend/neo4j_ontology_access/model/Annotation.java:137-140 | only the number value changes |
| Annotations.Annotation.SetBooleanValue | neo4j-ontology-access/src/main/java/care/smith/top/backend/neo4j_ontology_access/model/Annotation.java:192-195 | only the boolean value changes |
| Annotations.Annotation.SetClassValue | neo4j-ontology-access/src/main/java/care/smith/top/backend/neo4j_ontology_access/model/Annotation.java:201-204 | only the class value changes |
| Annotations.Annotation.SetLanguage | neo4j-ontology-access/src/main/java/care/smith/top/backend/neo4j_ontology_access/model/Annotation.java:174-177 | only the language changes |
| Annotations.Annotation.SetIndex | neo4j-ontology-access/src/main/java/care/smith/top/backend/neo4j_ontology_access/model/Annotation.java:183-186 | only the index changes |
| Annotations.NewString | neo4j-ontology-access/src/main/java/care/smith/top/backend/neo4j_ontology_access/model/Annotation.java:32-34 | three-argument constructor: null index, getValue returns the string |
| Annotations.NewInstant | neo4j-ontology-access/src/main/java/care/smith/top/backend/neo4j_ontology_access/model/Annotation.java:42-44 | three-argument constructor: null index |
| Annotations.NewLocalDateTime | neo4j-ontology-access/src/main/java/care/smith/top/backend/neo4j_ontology_access/model/Annotation.java:52-54 | three-argument constructor: null index, value at UTC |
| Annotations.NewNumber | neo4j-ontology-access/src/main/java/care/smith/top/backend/neo4j_ontology_access/model/Annotation.java:62-64 | three-argument constructor: null index |
| Annotations.NewBoolean | neo4j-ontology-access/src/main/java/care/smith/top/backend/neo4j_ontology_access/model/Annotation.java:72-74 | three-argument constructor: null index, value lost to getValue |
| Annotations.NewClass | neo4j-ontology-access/src/main/java/care/smith/top/backend/neo4j_ontology_access/model/Annotation.java:82-84 | three-argument constructor: null index |
| Annotations.BooleanValueIsLost | neo4j-ontology-access/src/main/java/care/smith/top/backend/neo4j_ontology_access/model/Annotation.java:76-80 | the boolean is stored but getValue returns null, for either boolean |
| Annotations.RetaggedBooleanIsRead | neo4j-ontology-access/src/main/java/care/smith/top/backend/neo4j_ontology_access/model/Annotation.java:128-131 | retagging with "boolean" makes the stored boolean readable |
| Directories.WithSuperDirectories | neo4j-ontology-access/src/main/java/care/smith/top/backend/neo4j_ontology_access/model/Directory.java:59-63 | the added directories and the old ones are kept, nothing else |
| Directories.AddingTwiceIsAddingOnce | neo4j-ontology-access/src/main/java/care/smith/top/backend/neo4j_ontology_access/model/Directory.java:60-61 | adding the same directories again changes nothing |
| Directories.Directory.Generated | neo4j-ontology-access/src/main/java/care/smith/top/backend/neo4j_ontology_access/model/Directory.java:46-48 | the id is the generated UUID, every other field null |
| Directories.Directory.constructor | neo4j-ontology-access/src/main/java/care/smith/top/backend/neo4j_ontology_access/model/Directory.java:50-53 | the id is the one supplied, every other field null |
| Directories.Directory.AddSuperDirectories | neo4j-ontology-access/src/main/java/care/smith/top/backend/neo4j_ontology_access/model/Directory.java:59-63 | a null set is created; the given directories are added and existing members kept; other fields unchanged |
| Directories.Directory.AddSuperDirectory | neo4j-ontology-access/src/main/java/care/smith/top/backend/neo4j_ontology_access/model/Directory.java:55-57 | the directory becomes a member; the same as addSuperDirectories of {d} |
| Directories.Directory.SetSuperDirectories | neo4j-ontology-access/src/main/java/care/smith/top/backend/neo4j_ontology_access/model/Directory.java:129-132 | the set is replaced wholesale, null included |
| Directories.Directory.SetName | neo4j-ontology-access/src/main/java/care/smith/top/backend/neo4j_ontology_access/model/Directory.java:73-76 | only the name changes |
| Directories.Directory.SetDescription | neo4j-ontology-access/src/main/java/care/smith/top/backend/neo4j_ontology_access/model/Directory.java:102-105 | only the description changes |
| Directories.Directory.SetTypes | neo4j-ontology-access/src/main/java/care/smith/top/backend/neo4j_ontology_access/model/Directory.java:111-114 | only the types change |
| Directories.Directory.SetProperties | neo4j-ontology-access/src/main/java/care/smith/top/backend/neo4j_ontology_access/model/Directory.java:120-123 | only the properties change |
| Directories.AddSuperDirectoryTwice | neo4j-ontology-access/src/main/java/care/smith/top/backend/neo4j_ontology_access/model/Directory.java:55-61 | adding a directory twice leaves the same set as adding it once |
| ConceptService.ConceptLabels | src/main/java/care/smith/top/backend/service/nlp/ConceptService.java:37 | exactly the labels other than "Phrase"; as many as the labels minus the "Phrase" labels |
| ConceptService.ConceptLabelsSingle | src/main/java/care/smith/top/backend/service/nlp/ConceptService.java:37 | one label is kept iff it is not "Phrase" |
| ConceptService.ConceptLabelsAppend | src/main/java/care/smith/top/backend/service/nlp/ConceptService.java:36-38 | the filter goes label by label: the result for a concatenation is the concatenated results, so order and duplicates are kept |
| ConceptService.Texts | src/main/java/care/smith/top/backend/service/nlp/ConceptService.java:35-39 | succeeds iff every concept label has at least eight characters; then each text is its label without the first eight characters, in order |
| ConceptService.Concepts | src/main/java/care/smith/top/backend/service/nlp/ConceptService.java:30-42 | an absent collection gives the empty list; otherwise succeeds iff every label can be stripped |
| ConceptService.Count | src/main/java/care/smith/top/backend/service/nlp/ConceptService.java:26-28 | count() is the size of concepts(), failing as it fails |
| ConceptService.PhraseYieldsNothing | src/main/java/care/smith/top/backend/service/nlp/ConceptService.java:37 | one more "Phrase" label changes neither the concept labels nor concepts() |
| ConceptService.PrefixRoundTrip | src/main/java/care/smith/top/backend/service/nlp/ConceptService.java:38 | with "Concept_" prefixes, putting the prefix back on each text gives the concept labels again |
| PhenotypeQueryService.ByIdIsTotalPreorder | resource-server/src/main/java/care/smith/top/backend/resource/service/PhenotypeQueryService.java:44 | comparing configurations by id is a total preorder |
| PhenotypeQueryService.SourceByIdIsTotalPreorder | resource-server/src/main/java/care/smith/top/backend/resource/service/PhenotypeQueryService.java:54 | comparing data sources by id is a total preorder |
| PhenotypeQueryService.Loadable | resource-server/src/main/java/care/smith/top/backend/resource/service/PhenotypeQueryService.java:42-43 | exactly the files that loaded with a non-null id |
| PhenotypeQueryService.GetDataAdapterConfigs | resource-server/src/main/java/care/smith/top/backend/resource/service/PhenotypeQueryService.java:39-49 | a directory that cannot be listed gives []; otherwise a permutation of the loadable configurations, sorted by id |
| PhenotypeQueryService.ListedIffLoadable | resource-server/src/main/java/care/smith/top/backend/resource/service/PhenotypeQueryService.java:41-45 | a configuration is listed iff its file loaded with a non-null id |
| PhenotypeQueryService.FirstWithId | resource-server/src/main/java/care/smith/top/backend/resource/service/PhenotypeQueryService.java:36 | the first configuration with the id, or none when no configuration has it |
| PhenotypeQueryService.GetDataAdapterConfig | resource-server/src/main/java/care/smith/top/backend/resource/service/PhenotypeQueryService.java:34-37 | empty for a null id; a found configuration has the id and is listed |
| PhenotypeQueryService.FoundIffLoaded | resource-server/src/main/java/care/smith/top/backend/resource/service/PhenotypeQueryService.java:34-37 | a non-null id is found iff a file with that id loaded |
| PhenotypeQueryService.ReplaceUnderscores | resource-server/src/main/java/care/smith/top/backend/resource/service/PhenotypeQueryService.java:53 | same length, every '_' replaced by ' ', other characters kept |
| PhenotypeQueryService.GetDataSources | resource-server/src/main/java/care/smith/top/backend/resource/service/PhenotypeQueryService.java:51-56 | one data source per listed configuration, same id, title = id with '_' replaced by ' ', sorted by id |
| PhenotypeQueryService.TitleHasNoUnderscore | resource-server/src/main/java/care/smith/top/backend/resource/service/PhenotypeQueryService.java:53 | a title holds no underscore and is as long as its id |
| PhenotypeQueryService.ExecuteQuery | resource-server/src/main/java/care/smith/top/backend/resource/service/PhenotypeQueryService.java:26-32 | NOT_FOUND exactly for an unknown configuration id, otherwise an empty result set |
| OrganisationService.GetOrganisations | src/main/java/care/smith/top/backend/service/OrganisationService.java:102-108 | as written: a null page is page index 1; page p >= 1 is index p - 1; a smaller page fails |
| OrganisationService.NullPageIsSecondPage | src/main/java/care/smith/top/backend/service/OrganisationService.java:103 | as written, no page gives the same as page 2: nothing for up to ten matches, only the eleventh of eleven |
| OrganisationService.GetOrganisationsIntended | src/main/java/care/smith/top/backend/service/OrganisationService.java:103 | a null page is the first page |
| OrganisationService.NullPageIsFirstPage | src/main/java/care/smith/top/backend/service/OrganisationService.java:103 | with the intended paging, no page returns the first PageSize matches |
| OrganisationService.PagesAreConsecutive | src/main/java/care/smith/top/backend/service/OrganisationService.java:103 | pages 1 and 2 together are the first 2 * PageSize matches |
| OrganisationService.OrganisationStore.SubOrganisations | src/main/java/care/smith/top/backend/service/OrganisationService.java:88 | exactly the organisations whose super-organisation is the given one |
| OrganisationService.OrganisationStore.ToApiModel | src/main/java/care/smith/top/backend/service/OrganisationService.java:58 | the API object carries the stored id, name, description and super-organisation |
| OrganisationService.OrganisationStore.constructor | src/main/java/care/smith/top/backend/service/OrganisationService.java:30-36 | an empty store, valid and without self-parents |
| OrganisationService.OrganisationStore.CreateOrganisation | src/main/java/care/smith/top/backend/service/OrganisationService.java:45-59 | CONFLICT for an existing id; the super-organisation is attached only when it exists; the current user gets MANAGE; references stay valid and no self-parent appears |
| OrganisationService.OrganisationStore.UpdateOrganisationById | src/main/java/care/smith/top/backend/service/OrganisationService.java:64-77 | NOT_FOUND for an unknown id; a requested super-organisation other than itself is attached when it exists, name and description copied; never a self-parent |
| OrganisationService.OrganisationStore.DeleteOrganisationById | src/main/java/care/smith/top/backend/service/OrganisationService.java:82-93 | NOT_FOUND for an unknown id; every sub-organisation re-parented to the deleted one's super-organisation (null included), then the organisation removed; references stay valid unless it was its own super-organisation |
| OrganisationService.DeleteInCycleMakesSelfParent | src/main/java/care/smith/top/backend/service/OrganisationService.java:88-92 | as written, deleting A in a cycle A under B under A leaves B its own super-organisation |
| OrganisationService.OrganisationStore.DeleteOrganisationByIdIntended | src/main/java/care/smith/top/backend/service/OrganisationService.java:88-92 | as intended: the same re-parenting, except a sub-organisation never becomes its own super-organisation; references stay valid |
| JpaEntityService.NumbersUnique | src/main/java/care/smith/top/backend/service/EntityService.java:196 | in a valid store, two versions of one entity with the same number are the same version |
| JpaEntityService.ChainIndexUnique | src/main/java/care/smith/top/backend/service/EntityService.java:196 | within a chain a number occurs at one position only |
| JpaEntityService.ChainKeysDistinct | src/main/java/care/smith/top/backend/service/EntityService.java:210-211 | a chain names each version once |
| JpaEntityService.SuccessorIsNext | src/main/java/care/smith/top/backend/service/EntityService.java:211 | a version names a chain member as previous iff it is the next member in the chain |
| JpaEntityService.LatestIsLast | src/main/java/care/smith/top/backend/service/EntityService.java:429 | the version whose next is null is exactly the chain's last version |
| JpaEntityService.LatestExists | src/main/java/care/smith/top/backend/service/EntityService.java:429 | an entity has a latest version iff it has any version, in particular when it has a current one |
| JpaEntityService.Unlink | src/main/java/care/smith/top/backend/service/EntityService.java:210-214 | the deleted version is gone; its successor takes over its previous link; every other row is unchanged |
| JpaEntityService.UnlinkKeepsChain | src/main/java/care/smith/top/backend/service/EntityService.java:210-214 | unlinking a chain member leaves the chain without it |
| JpaEntityService.AddEntityStaysValid | src/main/java/care/smith/top/backend/service/EntityService.java:58-59 | storing a new entity with its one version keeps the store invariant and starts its chain |
| JpaEntityService.AppendVersionStaysValid | src/main/java/care/smith/top/backend/service/EntityService.java:429-438 | appending a version after the latest, with a larger number, and making it current keeps the invariant |
| JpaEntityService.DeleteVersionStaysValid | src/main/java/care/smith/top/backend/service/EntityService.java:210-214 | deleting a non-current version and re-splicing keeps the invariant |
| JpaEntityService.DropEntityStaysValid | src/main/java/care/smith/top/backend/service/EntityService.java:187 | dropping an entity with its versions keeps the invariant |
| JpaEntityService.VersionsWithout | src/main/java/care/smith/top/backend/service/EntityService.java:187 | exactly the versions of other entities remain, unchanged |
| JpaEntityService.ExistingIn | src/main/java/care/smith/top/backend/service/EntityService.java:61-70 | exactly the referenced ids that name an entity of the same repository, in order |
| JpaEntityService.ValidIsConsistent | src/main/java/care/smith/top/backend/service/EntityService.java:383-395 | the chain invariant implies that the tables' references resolve |
| JpaEntityService.LeastKey | src/main/java/care/smith/top/backend/service/EntityService.java:378 | the least key of a set, none for the empty set |
| JpaEntityService.GetRepository | src/main/java/care/smith/top/backend/service/EntityService.java:449-457 | the repository when it exists and belongs to the organisation, NOT_FOUND otherwise |
| JpaEntityService.VersionNumbered | src/main/java/care/smith/top/backend/service/EntityService.java:196 | a version of the entity with that number, or none when there is none |
| JpaEntityService.NumberedVersionIsUnique | src/main/java/care/smith/top/backend/service/EntityService.java:196 | looking up a version's own number finds that version |
| JpaEntityService.VersionToApi | src/main/java/care/smith/top/backend/service/EntityService.java:393 | the view carries the version's number and texts and its entity's fields |
| JpaEntityService.EntityToApi | src/main/java/care/smith/top/backend/service/EntityService.java:388 | an entity is shown through its current version, or without version and texts when it has none |
| JpaEntityService.LoadEntity | src/main/java/care/smith/top/backend/service/EntityService.java:383-395 | NOT_FOUND unless the repository resolves, the entity is in it and a requested number exists; otherwise the current version (null version) or exactly the numbered one |
| JpaEntityService.CurrentLoadsAsItsNumber | src/main/java/care/smith/top/backend/service/EntityService.java:383-395 | loading without a version equals loading the current version's number |
| JpaEntityService.SubclassIds | src/main/java/care/smith/top/backend/service/EntityService.java:370 | exactly the repository's entities naming the entity as super-entity, ordered by id |
| JpaEntityService.GetSubclasses | src/main/java/care/smith/top/backend/service/EntityService.java:367-373 | NOT_FOUND for an unknown repository; otherwise the direct subclasses, shown through their current versions |
| JpaEntityService.RootIds | src/main/java/care/smith/top/backend/service/EntityService.java:362 | exactly the repository's entities without super-entities, ordered by id |
| JpaEntityService.GetRootEntitiesByRepositoryId | src/main/java/care/smith/top/backend/service/EntityService.java:351-365 | NOT_FOUND for an unknown repository; a page below 1 fails; otherwise the requested page of the root entities (null = first page) |
| JpaEntityService.NullPageIsFirstRootPage | src/main/java/care/smith/top/backend/service/EntityService.java:360 | no page gives page 1: the first PageSize root entities |
| JpaEntityService.VersionKeys | src/main/java/care/smith/top/backend/service/EntityService.java:378 | exactly the keys of the entity's versions, when the entity is in the repository, ascending |
| JpaEntityService.GetVersions | src/main/java/care/smith/top/backend/service/EntityService.java:375-381 | NOT_FOUND for an unknown repository; otherwise every version of the entity, shown |
| JpaEntityService.VersionsListedOnce | src/main/java/care/smith/top/backend/service/EntityService.java:375-381 | the listed versions all belong to the entity and carry distinct numbers |
| JpaEntityService.ForkViews | src/main/java/care/smith/top/backend/service/EntityService.java:338-347 | each fork is shown with its repository's id and name; every stored fork appears |
| JpaEntityService.GetForkingStats | src/main/java/care/smith/top/backend/service/EntityService.java:320-349 | NOT_FOUND unless the repository resolves and holds the entity; the origin is shown with its current titles only when it has a current version; the forks are listed |
| JpaEntityService.ForkOrigins | src/main/java/care/smith/top/backend/service/EntityService.java:104-115 | a restricted phenotype gives [super-phenotype, entity], the super-phenotype being its last super-entity, and fails without one; otherwise [entity], followed by its direct subclasses when cascading |
| JpaEntityService.LatestVersion | src/main/java/care/smith/top/backend/service/EntityService.java:429 | the version of the entity that no version names as previous, or none |
| JpaEntityService.LatestIsChainEnd | src/main/java/care/smith/top/backend/service/EntityService.java:429 | the latest version is the end of the entity's chain |
| JpaEntityService.NextNumberIsFresh | src/main/java/care/smith/top/backend/service/EntityService.java:432-434 | the next number is above every number the entity has used; there is no latest version only when the entity has no version |
| JpaEntityService.Successor | src/main/java/care/smith/top/backend/service/EntityService.java:211 | the version naming the given one as previous, or none |
| JpaEntityService.SuccessorAt | src/main/java/care/smith/top/backend/service/EntityService.java:211 | the successor of a chain member is the next member |
| JpaEntityService.CreateFork | src/main/java/care/smith/top/backend/service/EntityService.java:78-176 | NOT_ACCEPTABLE for the same repository, then NOT_FOUND for an unknown origin repository, then NOT_ACCEPTABLE for a non-primary origin, then NOT_FOUND for an unknown destination, before the entity is loaded; success always returns [] |
| JpaEntityService.SameRowLoadsSame | src/main/java/care/smith/top/backend/service/EntityService.java:383-390 | equal rows load equally without a version |
| JpaEntityService.SameNumberLoadsSame | src/main/java/care/smith/top/backend/service/EntityService.java:391-394 | equal numbered versions load equally |
| JpaEntityService.NewEntityConsistent | src/main/java/care/smith/top/backend/service/EntityService.java:58-59 | creating an entity keeps the tables consistent |
| JpaEntityService.NewEntityStaysValid | src/main/java/care/smith/top/backend/service/EntityService.java:58-59 | creating an entity keeps the chain invariant |
| JpaEntityService.NewEntityLoads | src/main/java/care/smith/top/backend/service/EntityService.java:58-72 | the new entity loads as version 1, with the given texts and linked super-entities, with and without the number |
| JpaEntityService.NewEntityHasOneVersion | src/main/java/care/smith/top/backend/service/EntityService.java:58-59 | a new entity has exactly one version |
| JpaEntityService.NewEntityLeavesOthers | src/main/java/care/smith/top/backend/service/EntityService.java:58-72 | creating an entity changes how no other entity loads |
| JpaEntityService.NewVersionConsistent | src/main/java/care/smith/top/backend/service/EntityService.java:429-438 | appending a version keeps the tables consistent |
| JpaEntityService.NewVersionStaysValid | src/main/java/care/smith/top/backend/service/EntityService.java:429-438 | appending a version keeps the chain invariant, extending the entity's chain |
| JpaEntityService.NewVersionLoads | src/main/java/care/smith/top/backend/service/EntityService.java:429-438 | after update the entity loads as the new version, numbered latest + 1 (0 without versions), which is the new latest |
| JpaEntityService.NewVersionKeepsHistory | src/main/java/care/smith/top/backend/service/EntityService.java:429-438 | every other version number loads as before |
| JpaEntityService.WithoutVersionKeepsText | src/main/java/care/smith/top/backend/service/EntityService.java:210-214 | deleting a version changes no other version's number or texts |
| JpaEntityService.VersionRemovalStaysValid | src/main/java/care/smith/top/backend/service/EntityService.java:206-214 | deleting a non-current version keeps the chain invariant |
| JpaEntityService.VersionRemovalForgetsIt | src/main/java/care/smith/top/backend/service/EntityService.java:214 | the deleted number no longer loads |
| JpaEntityService.UnusedNumberFailsToLoad | src/main/java/care/smith/top/backend/service/EntityService.java:391-394 | a number no version of the entity carries gives NOT_FOUND |
| JpaEntityService.RemovedNumberIsFree | src/main/java/care/smith/top/backend/service/EntityService.java:214 | no remaining version of the entity carries the deleted number |
| JpaEntityService.VersionRemovalKeepsCurrent | src/main/java/care/smith/top/backend/service/EntityService.java:206-214 | the entity still loads its current version as before |
| JpaEntityService.VersionRemovalKeepsOthers | src/main/java/care/smith/top/backend/service/EntityService.java:210-214 | every other number of every entity loads as before |
| JpaEntityService.CurrentChangeStaysValid | src/main/java/care/smith/top/backend/service/EntityService.java:416 | moving current to one of the entity's versions keeps the invariant |
| JpaEntityService.CurrentChangeLoads | src/main/java/care/smith/top/backend/service/EntityService.java:399-417 | afterwards the entity loads without a version as the chosen numbered version |
| JpaEntityService.CurrentChangeKeepsVersions | src/main/java/care/smith/top/backend/service/EntityService.java:416 | numbered versions load as before |
| JpaEntityService.EntityRemovalStaysValid | src/main/java/care/smith/top/backend/service/EntityService.java:181-188 | deleting an entity with its versions keeps the invariant |
| JpaEntityService.EntityRemovalLoads | src/main/java/care/smith/top/backend/service/EntityService.java:181-188 | the deleted entity no longer loads; every other entity loads as before |
| JpaEntityService.EntityStore.constructor | src/main/java/care/smith/top/backend/service/EntityService.java:449-457 | an empty store over the given repositories, valid with empty chains |
| JpaEntityService.EntityStore.LinkedSuperEntities | src/main/java/care/smith/top/backend/service/EntityService.java:61-70 | the loop links exactly the referenced ids found in the repository, in order |
| JpaEntityService.EntityStore.CreateEntity | src/main/java/care/smith/top/backend/service/EntityService.java:50-73 | CONFLICT for an id in use, then NOT_FOUND for an unknown repository, then BAD_REQUEST without an entity type, each leaving the tables unchanged; otherwise the tables become WithNewEntity and the result is the entity as loaded |
| JpaEntityService.EntityStore.UpdateEntityById | src/main/java/care/smith/top/backend/service/EntityService.java:421-439 | NOT_FOUND unless the repository resolves and holds the entity; otherwise the tables become WithNewVersion and the result is the entity as loaded |
| JpaEntityService.EntityStore.DeleteVersion | src/main/java/care/smith/top/backend/service/EntityService.java:191-215 | NOT_FOUND for an unknown repository, a missing version, another repository or no current version; NOT_ACCEPTABLE for the current version; otherwise the tables become WithoutVersion |
| JpaEntityService.EntityStore.SetCurrentEntityVersion | src/main/java/care/smith/top/backend/service/EntityService.java:399-417 | NOT_FOUND unless the repository, the entity and the numbered version exist; otherwise current moves to that version and the entity is returned as loaded |
| JpaEntityService.EntityStore.DeleteEntity | src/main/java/care/smith/top/backend/service/EntityService.java:181-188 | NOT_FOUND unless the repository resolves and holds the entity; otherwise the entity and its versions are removed |
| ResourceEntityService.DescIsLater | resource-server/src/main/java/care/smith/top/backend/resource/service/EntityService.java:128-131 | a descendant annotation was created after its ancestor |
| ResourceEntityService.SiblingNotBelow | resource-server/src/main/java/care/smith/top/backend/resource/service/EntityService.java:129 | a sibling is not below another sibling |
| ResourceEntityService.SiblingSubtreesDisjoint | resource-server/src/main/java/care/smith/top/backend/resource/service/EntityService.java:129 | sibling subtrees are disjoint |
| ResourceEntityService.DescViaChild | resource-server/src/main/java/care/smith/top/backend/resource/service/EntityService.java:129 | a descendant is a child or below a child |
| ResourceEntityService.DescUnderChild | resource-server/src/main/java/care/smith/top/backend/resource/service/EntityService.java:129 | below a child is below the parent |
| ResourceEntityService.SubtreeSurvivesSiblingDeletes | resource-server/src/main/java/care/smith/top/backend/resource/service/EntityService.java:129 | deleting sibling subtrees leaves another child's subtree intact |
| ResourceEntityService.OneMoreSubtreeRemoved | resource-server/src/main/java/care/smith/top/backend/resource/service/EntityService.java:129 | after one more child's recursive delete, exactly the subtrees of the handled children are gone |
| ResourceEntityService.ChildrenRemovedLast | resource-server/src/main/java/care/smith/top/backend/resource/service/EntityService.java:130 | deleting the children after their subtrees removes exactly the descendants and keeps owners resolvable |
| ResourceEntityService.DeleteAnnotations | resource-server/src/main/java/care/smith/top/backend/resource/service/EntityService.java:128-131 | exactly the descendants of the annotatable are deleted, every other annotation is kept, the annotatable itself survives, the graph stays valid |
| ResourceEntityService.DeleteChildSubtree | resource-server/src/main/java/care/smith/top/backend/resource/service/EntityService.java:129 | one child's recursive delete removes exactly its subtree among what is left |
| ResourceEntityService.Attach | resource-server/src/main/java/care/smith/top/backend/resource/service/EntityService.java:145 | the stored annotation carries the draft's fields and the owner |
| ResourceEntityService.BuildClassVersion | resource-server/src/main/java/care/smith/top/backend/resource/service/EntityService.java:139-155 | string annotations without index, property title/synonym/description, holding exactly the distinct texts of each list |
| ResourceEntityService.DraftsOnAttach | resource-server/src/main/java/care/smith/top/backend/resource/service/EntityService.java:43 | attaching one annotation adds its draft to the version's annotations |
| ResourceEntityService.AttachAnnotations | resource-server/src/main/java/care/smith/top/backend/resource/service/EntityService.java:43 | the new version carries exactly the built annotations; nothing else is touched |
| ResourceEntityService.AddVersionNode | resource-server/src/main/java/care/smith/top/backend/resource/service/EntityService.java:43 | a fresh version node numbered by getNextVersion, not hidden, without annotations |
| ResourceEntityService.CreateVersion | resource-server/src/main/java/care/smith/top/backend/resource/service/EntityService.java:43 | a new version numbered by getNextVersion carries the drafts and becomes the class's only current version; other classes keep theirs |
| ResourceEntityService.FirstSuperIndex | resource-server/src/main/java/care/smith/top/backend/resource/service/EntityService.java:171-173 | null when the class has no super-class relation; otherwise the index (possibly null) of one of its relations, the first in relation order |
| ResourceEntityService.TextsOnAreDraftTexts | resource-server/src/main/java/care/smith/top/backend/resource/service/EntityService.java:194-205 | the texts read back by property are the texts of the attached drafts |
| ResourceEntityService.ClassVersionToEntity | resource-server/src/main/java/care/smith/top/backend/resource/service/EntityService.java:163-211 | id, number and hidden flag of the version; the index of a super-class relation of its class; titles/synonyms/descriptions from its annotations |
| ResourceEntityService.SelectVersion | resource-server/src/main/java/care/smith/top/backend/resource/service/EntityService.java:90-95 | the current version for a null version, else a version of the class with that number, none when there is none |
| ResourceEntityService.ClassToEntity | resource-server/src/main/java/care/smith/top/backend/resource/service/EntityService.java:219-226 | the current version shown; INTERNAL_SERVER_ERROR without one |
| ResourceEntityService.LoadEntity | resource-server/src/main/java/care/smith/top/backend/resource/service/EntityService.java:69-80 | NOT_FOUND for an unknown class or missing version; otherwise the selected version shown, with the requested number |
| ResourceEntityService.SuperRelations | resource-server/src/main/java/care/smith/top/backend/resource/service/EntityService.java:45-64 | one relation per super-category or super-phenotype, owned by repositoryName, carrying the entity's index |
| ResourceEntityService.AppendRelations | resource-server/src/main/java/care/smith/top/backend/resource/service/EntityService.java:60-63 | the relations are appended in order |
| ResourceEntityService.CreateEntity | resource-server/src/main/java/care/smith/top/backend/resource/service/EntityService.java:29-67 | CONFLICT for an existing class, then NOT_FOUND unless the repository is in the organisation directory, changing nothing; otherwise a class with one current version numbered 1 holding the texts, one relation per super-entity, returned as loaded |
| ResourceEntityService.HidingKeepsNumbers | resource-server/src/main/java/care/smith/top/backend/resource/service/EntityService.java:104 | hiding keeps every version number lookup |
| ResourceEntityService.DeletingKeepsOtherNumbers | resource-server/src/main/java/care/smith/top/backend/resource/service/EntityService.java:102 | deleting a version keeps every other number lookup |
| ResourceEntityService.DeleteEntity | resource-server/src/main/java/care/smith/top/backend/resource/service/EntityService.java:82-106 | NOT_FOUND for an unknown class or version; permanent: the version, its annotation tree and its expressions go; otherwise the version is marked hidden and nothing else changes |
| ResourceEntityService.DeleteVersionNode | resource-server/src/main/java/care/smith/top/backend/resource/service/EntityService.java:99-102 | the version, its CURRENT_VERSION edges, its expressions and exactly its annotation descendants are deleted |
| ResourceEntityService.HideVersion | resource-server/src/main/java/care/smith/top/backend/resource/service/EntityService.java:104 | the version is hidden, whether or not it already was |
| ResourceEntityService.UpdateEntityById | resource-server/src/main/java/care/smith/top/backend/resource/service/EntityService.java:108-121 | NOT_FOUND for an unknown class; otherwise a new current version numbered above every existing one, with the new texts, returned as loaded |

## Left out

- Persistence, transactions, Spring caching and security are left out: the finders and `save`/`delete` are in-memory map and set operations, and each service method is one atomic step.
- The repository interfaces whose query bodies are not shown are abstract lookups. These are the JPA `EntityRepository`, `EntityVersionRepository`, `CategoryRepository`, `PhenotypeRepository` and `RepositoryService.getRepository`, and the Neo4j `Class`/`ClassVersion` navigation.
  - `getRepository` is "the repository exists and its organisation is the given one".
  - `findByEntityIdAndNextVersionIsNull` is "the version nobody names as previous".
  - The JPA `EntityDao`/`EntityVersionDao` classes are not part of this model. Their next version is derived from the previous links.
- JPA `count`, `getEntities` and `getEntitiesByRepositoryId` are left out, because their finders' queries are not visible. `exportEntity` is left out because its body is commented out.
- JpaEntityService.CreateFork: the per-origin copy loop is commented out, so the model computes the origin set only to decide success and returns the empty list.
- JpaEntityService.WithoutVersion: `deleteVersion` re-splices only when both neighbours exist. The model unlinks in every case, so the successor of a first version gets no previous version. In the code, that successor would keep a reference to the deleted row.
- JpaEntityService.WithoutEntity: deleting an entity is assumed to cascade to its versions. References to it from other entities' super-entity, origin and fork lists are kept as they are.
- JpaEntityService.EntityStore.Valid: the class invariant is only that the tables' references resolve. Chain preservation is proved on the specification functions (`NewEntityStaysValid`, `NewVersionStaysValid`, `VersionRemovalStaysValid`, `CurrentChangeStaysValid`, `EntityRemovalStaysValid`), which the methods are proved to implement.
- JpaEntityService.SubclassIds: `getSubclasses` lists direct subclasses only, ordered by id; the store's own order is unspecified.
- Timestamps (`createdAt`, `hiddenAt`) are left out: hiding is a flag. The `Double` number values are opaque.
- ResourceEntityService.CreateEntity: saving a class with relations to classes that do not exist would create those nodes in Neo4j and may overwrite their properties. The model only adds the relations.
- ResourceEntityService.ClassVersionToEntity: equivalent classes, creation metadata and the entity type are not modelled. Texts are compared as sets, because the annotation finder's order is not shown.
- ResourceEntityService.LoadEntity: the organisation and repository names are ignored, as in the code. `getVersion(n)` is taken to be "the version with that number".
- ResourceEntityService.DeleteEntity: `v.getVersion() == version` is read as a numeric comparison.
- PhenotypeQueryService: the directory listing, `DataAdapterConfig.getInstance` and logging are inputs (one `LoadedFile` per file, `None` for a listing that throws). The query itself is not run.
- OrganisationService: `getOrganisation`, `count` and the repository's name/description query are lookups taken as input. The current user is a parameter. Permissions other than MANAGE on creation are not modelled.
- Directories.Directory.Generated: the random UUID is a parameter.
- Annotations.ToInstantAtUtc: a `LocalDateTime` is modelled by its epoch-second count read at UTC, so the conversion at offset UTC is the identity. Calendar fields are not modelled.
- Directories.Directory.SetSuperDirectories: sets are values. The set a caller passes is stored by reference in Java, and a later `addSuperDirectories` changes it for everyone holding it. This aliasing is not modelled. Neither are the UnsupportedOperationException when the caller's set is immutable and the NullPointerException of `addSuperDirectories(null)`.
- ResourceEntityService.LoadEntity: `Class.getVersion` is not part of this model. `getVersion(null)` is read as "the current version", as `deleteEntity` selects it explicitly.
- ResourceEntityService.CreateVersion: `Class.createVersion(v, true)` is not part of this model. It is taken to number the new version by `getNextVersion` and make it the class's only current version.
- OrganisationService.OrganisationStore.UpdateOrganisationById: `Organisation.update(data)` is not part of this model. It is taken to copy the name and description and nothing else.
- OrganisationService.GetOrganisations: Java `Integer` wrap-around is not modelled. For `page = Integer.MIN_VALUE`, `page - 1` wraps to `Integer.MAX_VALUE`, so Java returns an empty page where the model fails.
- JpaEntityService.GetRootEntitiesByRepositoryId: as for `getOrganisations`, `page - 1` is unbounded, so the wrap of `Integer.MIN_VALUE` to an empty last page is not modelled.
- JpaEntityService.WithNewVersion: `latestVersion.getVersion() + 1` is unbounded. The Java `int` wrap after version 2147483647 is not modelled.
- Sorting.StrLe: strings are compared character by character over Dafny's `char`. Java's `compareTo` compares UTF-16 code units, which gives a different order when supplementary characters are involved.
- JpaEntityService.ForkOrigins: `EntityDao.toApiModel` is not part of this model. A restricted phenotype's super-phenotype is taken to be its last super-entity, the one `createEntity` links after the super-categories.

## Findings

| source | as written | input that shows it | evidently intended | confidence | as-written member | corrected member |
|---|---|---|---|---|---|---|
| neo4j-ontology-access/src/main/java/care/smith/top/backend/neo4j_ontology_access/model/Annotation.java:76-80 | the Boolean constructor sets the datatype to "number" and fills `booleanValue`, so `getValue` reads the unset number field | `new Annotation("flag", true, null, null).getValue()` returns null | datatype "boolean", so that `getValue` returns the boolean | not executed; high | Annotations.BooleanValueIsLost | Annotations.Annotation.OfBooleanIntended |
| src/main/java/care/smith/top/backend/service/OrganisationService.java:103 | a null page becomes page index 1, the second page | eleven matching organisations and no page: only the eleventh is returned | a null page is the first page (index 0), as in the entity service's paging | not executed; high | OrganisationService.NullPageIsSecondPage | OrganisationService.NullPageIsFirstPage |
| src/main/java/care/smith/top/backend/service/OrganisationService.java:88-92 | every sub-organisation is re-parented to the deleted organisation's super-organisation, even when that is the sub-organisation itself | A under B and B under A (the update guard only refuses a direct self-reference); deleting A makes B its own super-organisation | no organisation becomes its own super-organisation | not executed; medium | OrganisationService.DeleteInCycleMakesSelfParent | OrganisationService.OrganisationStore.DeleteOrganisationByIdIntended |
