/** The Neo4j graph behind the resource server, held in memory: class nodes,
    class-version nodes with their IS_VERSION_OF class, CURRENT_VERSION edges,
    IS_SUBCLASS_OF relations, annotation and expression nodes, and the
    BELONGS_TO edges between repositories and directories.

    The Class and ClassVersion node classes are not part of this model; their
    navigation (a class's current version, its version with a given number) is
    given here as functions over the graph. */
module OntologyGraph {
  import opened Outcomes

  type ClassId = string
  /** The internal id Neo4j gives a node (`id(n)` in Cypher). */
  type NodeId = nat

  /** A `Class` node: the repository it lives in and its ordering index. */
  datatype ClassNode = ClassNode(repositoryId: Option<string>, index: Option<int>)

  /** A `ClassVersion` node of class `classId`; `hidden` stands for a non-null
      `hiddenAt`. */
  datatype ClassVersionNode = ClassVersionNode(classId: ClassId, version: int, hidden: bool)

  /** An IS_SUBCLASS_OF relation from `sub` to `super`, owned by the repository
      `ownerId` that performed the subclassing, with an ordering index. */
  datatype SubclassEdge = SubclassEdge(sub: ClassId, super: ClassId, ownerId: string, index: Option<int>)

  /** What an annotation hangs off: a class version or another annotation. */
  datatype Annotatable = OfVersion(version: NodeId) | OfAnnotation(annotation: NodeId)

  /** The stored properties of an `Annotation` node. */
  datatype AnnotationNode = AnnotationNode(
    owner: Annotatable,
    property: string,
    dataType: string,
    stringValue: string,
    language: Option<string>,
    index: Option<int>)

  class Graph {
    var classes: map<ClassId, ClassNode>
    var versions: map<NodeId, ClassVersionNode>
    /** CURRENT_VERSION edges, from a class id to a version node. */
    var currentEdges: set<(ClassId, NodeId)>
    var subclassEdges: seq<SubclassEdge>
    var annotations: map<NodeId, AnnotationNode>
    /** Expression nodes, each mapped to the version node that owns it. */
    var expressions: map<NodeId, NodeId>
    /** BELONGS_TO edges by node id, and the ids labelled Repository / Directory. */
    var belongsTo: set<(string, string)>
    var repositories: set<string>
    var directories: set<string>
    /** Every node id in use is below this bound; fresh nodes take it. */
    var nextNodeId: nat

    /** The graph invariant that every operation of the resource server keeps. */
    ghost predicate Valid()
      reads this
    {
      ValidState(classes, versions, currentEdges, annotations, expressions, nextNodeId)
    }
  }

  /** The graph invariant, on the graph's parts. */
  ghost predicate ValidState(
    classes: map<ClassId, ClassNode>, versions: map<NodeId, ClassVersionNode>,
    currentEdges: set<(ClassId, NodeId)>, annotations: map<NodeId, AnnotationNode>,
    expressions: map<NodeId, NodeId>, nextNodeId: nat)
  {
    && CurrentUnique(currentEdges)
    && (forall c, k :: (c, k) in currentEdges ==> k in versions)
    && VersionNumbersUnique(versions)
    && (forall k :: k in versions ==> k < nextNodeId)
    && (forall k :: k in annotations ==> k < nextNodeId)
    && (forall k :: k in expressions ==> k < nextNodeId)
    && ParentsBeforeChildren(annotations)
    && (forall k :: k in versions ==> versions[k].classId in classes)
    && OwnersExist(annotations, versions.Keys)
    && (forall e :: e in expressions ==> expressions[e] in versions)
  }

  /** `small` is `big` with some entries removed. */
  ghost predicate SubMap<K, V>(small: map<K, V>, big: map<K, V>) {
    forall x :: x in small ==> x in big && small[x] == big[x]
  }

  /** Adding a version node under the next free id keeps the invariant when its
      class exists and its number is new for the class. */
  lemma NewVersionStaysValid(
    classes: map<ClassId, ClassNode>, versions: map<NodeId, ClassVersionNode>,
    currentEdges: set<(ClassId, NodeId)>, annotations: map<NodeId, AnnotationNode>,
    expressions: map<NodeId, NodeId>, nextNodeId: nat, v: ClassVersionNode)
    requires ValidState(classes, versions, currentEdges, annotations, expressions, nextNodeId)
    requires v.classId in classes && VersionNumbersUnique(versions[nextNodeId := v])
    ensures ValidState(classes, versions[nextNodeId := v], currentEdges, annotations, expressions, nextNodeId + 1)
  {
  }

  /** Adding an annotation node on an existing version under the next free id
      keeps the invariant. */
  lemma NewAnnotationStaysValid(
    classes: map<ClassId, ClassNode>, versions: map<NodeId, ClassVersionNode>,
    currentEdges: set<(ClassId, NodeId)>, annotations: map<NodeId, AnnotationNode>,
    expressions: map<NodeId, NodeId>, nextNodeId: nat, a: AnnotationNode)
    requires ValidState(classes, versions, currentEdges, annotations, expressions, nextNodeId)
    requires a.owner.OfVersion? && a.owner.version in versions
    ensures ValidState(classes, versions, currentEdges, annotations[nextNodeId := a], expressions, nextNodeId + 1)
  {
  }

  /** Removing annotations keeps the invariant as long as no remaining
      annotation loses its owner. */
  lemma FewerAnnotationsStayValid(
    classes: map<ClassId, ClassNode>, versions: map<NodeId, ClassVersionNode>,
    currentEdges: set<(ClassId, NodeId)>, big: map<NodeId, AnnotationNode>, small: map<NodeId, AnnotationNode>,
    expressions: map<NodeId, NodeId>, nextNodeId: nat)
    requires ValidState(classes, versions, currentEdges, big, expressions, nextNodeId)
    requires SubMap(small, big) && OwnersExist(small, versions.Keys)
    ensures ValidState(classes, versions, currentEdges, small, expressions, nextNodeId)
  {
  }

  /** Deleting a version node, its CURRENT_VERSION edges and its expressions
      keeps the invariant once no annotation hangs off it any more. */
  lemma RemoveVersionStaysValid(
    classes: map<ClassId, ClassNode>, versions: map<NodeId, ClassVersionNode>,
    currentEdges: set<(ClassId, NodeId)>, annotations: map<NodeId, AnnotationNode>,
    expressions: map<NodeId, NodeId>, nextNodeId: nat, k: NodeId)
    requires ValidState(classes, versions, currentEdges, annotations, expressions, nextNodeId)
    requires forall a :: a in annotations ==> annotations[a].owner != OfVersion(k)
    ensures ValidState(classes, versions - {k}, DetachVersion(currentEdges, k), annotations,
                       ExpressionsWithout(expressions, k), nextNodeId)
  {
  }

  /** The CURRENT_VERSION edges that do not point at version `k`. */
  function DetachVersion(edges: set<(ClassId, NodeId)>, k: NodeId): (r: set<(ClassId, NodeId)>)
    ensures forall c, v :: (c, v) in r <==> (c, v) in edges && v != k
  {
    set e | e in edges && e.1 != k
  }

  /** The expressions that do not belong to version `k`. */
  function ExpressionsWithout(expressions: map<NodeId, NodeId>, k: NodeId): (r: map<NodeId, NodeId>)
    ensures SubMap(r, expressions)
    ensures forall e :: e in expressions ==> (e in r <==> expressions[e] != k)
  {
    map e | e in expressions && expressions[e] != k :: expressions[e]
  }

  /** Marking a version hidden keeps the invariant. */
  lemma HideStaysValid(
    classes: map<ClassId, ClassNode>, versions: map<NodeId, ClassVersionNode>,
    currentEdges: set<(ClassId, NodeId)>, annotations: map<NodeId, AnnotationNode>,
    expressions: map<NodeId, NodeId>, nextNodeId: nat, k: NodeId)
    requires ValidState(classes, versions, currentEdges, annotations, expressions, nextNodeId)
    requires k in versions
    ensures ValidState(classes, versions[k := versions[k].(hidden := true)], currentEdges, annotations,
                       expressions, nextNodeId)
  {
  }

  /** At most one CURRENT_VERSION edge leaves each class. */
  ghost predicate CurrentUnique(edges: set<(ClassId, NodeId)>) {
    forall c, k1, k2 :: (c, k1) in edges && (c, k2) in edges ==> k1 == k2
  }

  /** No class has two version nodes with the same number. */
  ghost predicate VersionNumbersUnique(versions: map<NodeId, ClassVersionNode>) {
    forall k1, k2 ::
      (k1 in versions && k2 in versions
       && versions[k1].classId == versions[k2].classId
       && versions[k1].version == versions[k2].version) ==> k1 == k2
  }

  /** An annotation on an annotation was created after its parent, so the
      annotation tree has no cycle. */
  ghost predicate ParentsBeforeChildren(annotations: map<NodeId, AnnotationNode>) {
    forall a :: a in annotations && annotations[a].owner.OfAnnotation? ==>
      annotations[a].owner.annotation < a
  }

  /** Every annotation hangs off a stored version or a stored annotation. */
  ghost predicate OwnersExist(annotations: map<NodeId, AnnotationNode>, versionIds: set<NodeId>) {
    forall a :: a in annotations ==>
      match annotations[a].owner
      case OfVersion(v) => v in versionIds
      case OfAnnotation(p) => p in annotations
  }

  /** The version a class's CURRENT_VERSION edge points at, if it has one. */
  function CurrentVersion(edges: set<(ClassId, NodeId)>, c: ClassId): (r: Option<NodeId>)
    requires CurrentUnique(edges)
    ensures r.Some? <==> exists k :: (c, k) in edges
    ensures r.Some? ==> (c, r.value) in edges
  {
    if exists e :: e in edges && e.0 == c then
      var e :| e in edges && e.0 == c; Some(e.1)
    else None
  }

  /** The version node of class `c` numbered `n`, if there is one. */
  function VersionNumbered(versions: map<NodeId, ClassVersionNode>, c: ClassId, n: int): (r: Option<NodeId>)
    requires VersionNumbersUnique(versions)
    ensures r.Some? ==> r.value in versions && versions[r.value].classId == c && versions[r.value].version == n
    ensures r.None? ==> forall k :: k in versions ==> !(versions[k].classId == c && versions[k].version == n)
  {
    if exists k :: k in versions && versions[k].classId == c && versions[k].version == n then
      var k :| k in versions && versions[k].classId == c && versions[k].version == n; Some(k)
    else None
  }
}
