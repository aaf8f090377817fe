/** The Cypher queries of the class repository, as functions over the graph's
    class, version and IS_SUBCLASS_OF data, and `setCurrent` as an update of the
    CURRENT_VERSION edges. */
module ClassRepository {
  import opened Outcomes
  import opened OntologyGraph
  import opened Sorting

  // ---------------------------------------------------------------- findSubclasses

  /** Cypher's ascending ORDER BY on a nullable integer: nulls sort last. */
  predicate NullsLastLe(a: Option<int>, b: Option<int>) {
    match (a, b)
    case (Some(x), Some(y)) => x <= y
    case (Some(_), None) => true
    case (None, Some(_)) => false
    case (None, None) => true
  }

  /** The `index` property of a class node (null for a missing node). */
  function IndexOf(classes: map<ClassId, ClassNode>, c: ClassId): Option<int> {
    if c in classes then classes[c].index else None
  }

  /** ORDER BY sub.index. */
  function ByIndex(classes: map<ClassId, ClassNode>): (ClassId, ClassId) -> bool {
    (a: ClassId, b: ClassId) => NullsLastLe(IndexOf(classes, a), IndexOf(classes, b))
  }

  lemma ByIndexIsTotalPreorder(classes: map<ClassId, ClassNode>)
    ensures TotalPreorder(ByIndex(classes))
  {
    var le := ByIndex(classes);
    forall a, b, c | le(a, b) && le(b, c) ensures le(a, c) {
      assert NullsLastLe(IndexOf(classes, a), IndexOf(classes, b));
    }
  }

  /** The pattern (super:Class {id: classId}) <-[:IS_SUBCLASS_OF {ownerId: repositoryId}]- (sub:Class). */
  predicate SubclassMatch(classes: map<ClassId, ClassNode>, e: SubclassEdge, classId: ClassId, repositoryId: string) {
    classId in classes && e.sub in classes && e.super == classId && e.ownerId == repositoryId
  }

  /** One row per matching relation, in relation order, before ORDER BY. */
  function SubclassRows(classes: map<ClassId, ClassNode>, edges: seq<SubclassEdge>, classId: ClassId, repositoryId: string)
    : (r: seq<ClassId>)
    ensures forall x :: x in r <==> exists e :: e in edges && SubclassMatch(classes, e, classId, repositoryId) && e.sub == x
  {
    if edges == [] then []
    else
      var rest := SubclassRows(classes, edges[1..], classId, repositoryId);
      assert forall e :: e in edges <==> e == edges[0] || e in edges[1..];
      if SubclassMatch(classes, edges[0], classId, repositoryId) then [edges[0].sub] + rest else rest
  }

  /** A single relation gives one row, its subclass, exactly when it matches. */
  lemma SubclassRowsSingle(classes: map<ClassId, ClassNode>, e: SubclassEdge, classId: ClassId, repositoryId: string)
    ensures SubclassRows(classes, [e], classId, repositoryId)
      == if SubclassMatch(classes, e, classId, repositoryId) then [e.sub] else []
  {
    assert [e][1..] == [];
  }

  /** The rows are produced relation by relation: the rows of a concatenation are
      the concatenated rows. With SubclassRowsSingle this fixes one row per
      matching relation, in relation order, duplicates included. */
  lemma {:induction false} SubclassRowsAppend(
    classes: map<ClassId, ClassNode>, a: seq<SubclassEdge>, b: seq<SubclassEdge>, classId: ClassId, repositoryId: string)
    ensures SubclassRows(classes, a + b, classId, repositoryId)
      == SubclassRows(classes, a, classId, repositoryId) + SubclassRows(classes, b, classId, repositoryId)
  {
    if a == [] {
      assert a + b == b;
    } else {
      assert (a + b)[1..] == a[1..] + b;
      SubclassRowsAppend(classes, a[1..], b, classId, repositoryId);
    }
  }

  /** findSubclasses(classId, repositoryId): the subclasses of `classId` whose
      IS_SUBCLASS_OF relation is owned by `repositoryId`, ordered by index. */
  function FindSubclasses(classes: map<ClassId, ClassNode>, edges: seq<SubclassEdge>, classId: ClassId, repositoryId: string)
    : (r: seq<ClassId>)
    ensures forall x :: x in r <==>
      exists e :: e in edges && e.sub == x && e.super == classId && e.ownerId == repositoryId
                  && classId in classes && x in classes
    ensures multiset(r) == multiset(SubclassRows(classes, edges, classId, repositoryId))
    ensures SortedBy(r, ByIndex(classes))
  {
    ByIndexIsTotalPreorder(classes);
    var rows := SubclassRows(classes, edges, classId, repositoryId);
    var r := SortBy(rows, ByIndex(classes));
    assert forall x :: x in multiset(rows) <==> x in rows;
    assert forall x :: x in multiset(r) <==> x in r;
    r
  }

  // ---------------------------------------------------------- findRootClassesByRepository

  /** findRootClassesByRepository(repository): the classes of the repository with
      no outgoing IS_SUBCLASS_OF relation, whoever owns it. */
  function FindRootClassesByRepository(classes: map<ClassId, ClassNode>, edges: seq<SubclassEdge>, repositoryId: string)
    : (r: set<ClassId>)
    ensures r <= classes.Keys
  {
    set c | c in classes && classes[c].repositoryId == Some(repositoryId)
              && forall i :: 0 <= i < |edges| ==> edges[i].sub != c
  }

  /** findByIdAndRepositoryId(id, repositoryId). */
  function FindByIdAndRepositoryId(classes: map<ClassId, ClassNode>, id: ClassId, repositoryId: string)
    : (r: Option<ClassId>)
    ensures r.Some? ==> r.value == id && id in classes && classes[id].repositoryId == Some(repositoryId)
    ensures r.None? ==> id !in classes || classes[id].repositoryId != Some(repositoryId)
  {
    if id in classes && classes[id].repositoryId == Some(repositoryId) then Some(id) else None
  }

  /** A root class is found by id in its repository and is nobody's subclass,
      under any owner. */
  lemma {:induction false} RootIsNoSubclass(
    classes: map<ClassId, ClassNode>, edges: seq<SubclassEdge>, repositoryId: string, c: ClassId)
    requires c in FindRootClassesByRepository(classes, edges, repositoryId)
    ensures FindByIdAndRepositoryId(classes, c, repositoryId) == Some(c)
    ensures forall super, owner :: c !in FindSubclasses(classes, edges, super, owner)
  {
    forall super, owner ensures c !in FindSubclasses(classes, edges, super, owner) {
      forall e | e in edges ensures e.sub != c {
        var i :| 0 <= i < |edges| && edges[i] == e;
      }
    }
  }

  /** Conversely, when every relation points at an existing class, a class of the
      repository that is nobody's subclass is a root. Neo4j guarantees the
      requirement, since a relationship always ends at a stored node; the graph
      invariant of this model does not carry it, so it is stated here. */
  lemma {:induction false} NoSubclassIsRoot(
    classes: map<ClassId, ClassNode>, edges: seq<SubclassEdge>, repositoryId: string, c: ClassId)
    requires FindByIdAndRepositoryId(classes, c, repositoryId) == Some(c)
    requires forall i :: 0 <= i < |edges| ==> edges[i].super in classes
    requires forall super, owner :: c !in FindSubclasses(classes, edges, super, owner)
    ensures c in FindRootClassesByRepository(classes, edges, repositoryId)
  {
    forall i | 0 <= i < |edges| ensures edges[i].sub != c {
      var e := edges[i];
      assert e in edges;
      assert c !in FindSubclasses(classes, edges, e.super, e.ownerId);
    }
  }

  // ----------------------------------------------------------------- getNextVersion

  /** The version numbers of the versions of class `c`. */
  function VersionNumbers(versions: map<NodeId, ClassVersionNode>, c: ClassId): set<int> {
    set k | k in versions && versions[k].classId == c :: versions[k].version
  }

  /** A finite set of integers with a known member has a greatest member. */
  lemma {:induction false} MaxExists(s: set<int>, w: int)
    requires w in s
    ensures exists m :: m in s && forall y :: y in s ==> y <= m
    decreases s
  {
    if exists y :: y in s && y > w {
      var y :| y in s && y > w;
      var above := set z | z in s && z > w;
      assert above < s;
      MaxExists(above, y);
      var m :| m in above && forall z :: z in above ==> z <= m;
      forall z | z in s ensures z <= m {
        if z > w { assert z in above; }
      }
    } else {
      assert forall z :: z in s ==> z <= w;
    }
  }

  /** Cypher's max() over a non-empty collection of numbers. */
  function Max(s: set<int>): (m: int)
    requires exists w :: w in s
    ensures m in s && forall y :: y in s ==> y <= m
  {
    var w :| w in s;
    MaxExists(s, w);
    var m :| m in s && forall y :: y in s ==> y <= m; m
  }

  /** The class has at least one version node. */
  predicate HasVersion(versions: map<NodeId, ClassVersionNode>, c: ClassId) {
    exists k :: k in versions && versions[k].classId == c
  }

  /** getNextVersion(cls): the highest version number of the class plus one, or
      1 when the class does not exist or has no version. */
  function GetNextVersion(classes: map<ClassId, ClassNode>, versions: map<NodeId, ClassVersionNode>, c: ClassId)
    : (r: int)
    ensures c in classes ==> forall n :: n in VersionNumbers(versions, c) ==> n < r
    ensures c in classes && HasVersion(versions, c) ==> r - 1 in VersionNumbers(versions, c)
    ensures c !in classes || !HasVersion(versions, c) ==> r == 1
  {
    if c !in classes || !HasVersion(versions, c) then 1
    else
      var ns := VersionNumbers(versions, c);
      assert exists w :: w in ns by {
        var k :| k in versions && versions[k].classId == c;
        assert versions[k].version in ns;
      }
      Max(ns) + 1
  }

  /** Adding a version numbered by getNextVersion moves the next number on by one. */
  lemma {:induction false} NextVersionAfterAppend(
    classes: map<ClassId, ClassNode>, versions: map<NodeId, ClassVersionNode>, c: ClassId,
    k: NodeId, v: ClassVersionNode)
    requires c in classes && k !in versions
    requires v.classId == c && v.version == GetNextVersion(classes, versions, c)
    ensures GetNextVersion(classes, versions[k := v], c) == GetNextVersion(classes, versions, c) + 1
  {
    var n := GetNextVersion(classes, versions, c);
    var vs := versions[k := v];
    assert HasVersion(vs, c) by { assert k in vs && vs[k].classId == c; }
    var ns := VersionNumbers(vs, c);
    assert n in ns by { assert k in vs && vs[k].classId == c; }
    forall x | x in ns ensures x <= n {
      var j :| j in vs && vs[j].classId == c && vs[j].version == x;
      if j != k { assert x in VersionNumbers(versions, c); }
    }
    var r := GetNextVersion(classes, vs, c);
    assert r - 1 in ns;
  }

  /** A version numbered by getNextVersion never clashes with an existing
      version number of its class. */
  lemma NextVersionIsUnused(
    classes: map<ClassId, ClassNode>, versions: map<NodeId, ClassVersionNode>, c: ClassId,
    k: NodeId, hidden: bool)
    requires VersionNumbersUnique(versions)
    requires c in classes && k !in versions
    ensures VersionNumbersUnique(versions[k := ClassVersionNode(c, GetNextVersion(classes, versions, c), hidden)])
  {
    var n := GetNextVersion(classes, versions, c);
    forall j | j in versions && versions[j].classId == c ensures versions[j].version != n {
      assert versions[j].version in VersionNumbers(versions, c);
    }
  }

  // ---------------------------------------------------------------------- setCurrent

  /** setCurrent(cls, classVersion): when the class exists and the version node
      exists and is not hidden, every CURRENT_VERSION edge of the class is deleted
      and one is created to the version; otherwise the MATCH yields no row and
      nothing changes. The query does not check that the version belongs to the
      class. */
  method SetCurrent(g: Graph, cls: ClassId, cv: NodeId)
    requires g.Valid()
    modifies g`currentEdges
    ensures g.Valid()
    ensures cls in g.classes && cv in g.versions && !g.versions[cv].hidden ==>
      && CurrentVersion(g.currentEdges, cls) == Some(cv)
      && (forall k :: (cls, k) in g.currentEdges ==> k == cv)
      && (forall c, k :: c != cls ==> ((c, k) in g.currentEdges <==> (c, k) in old(g.currentEdges)))
    ensures !(cls in g.classes && cv in g.versions && !g.versions[cv].hidden) ==>
      g.currentEdges == old(g.currentEdges)
  {
    if cls in g.classes && cv in g.versions && !g.versions[cv].hidden {
      g.currentEdges := (set e | e in g.currentEdges && e.0 != cls) + {(cls, cv)};
    }
  }
}
