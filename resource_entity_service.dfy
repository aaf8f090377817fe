/** The entity service of the resource server, over the Neo4j graph: creating an
    entity as a class with a first current version, loading a version as an API
    entity, hiding or permanently deleting a version (with the recursive cascade
    over its annotations), and appending a new current version. */
module ResourceEntityService {
  import opened Outcomes
  import opened OntologyGraph
  import opened ApiModel
  import ClassRepository
  import RepositoryRepository

  // ------------------------------------------------------------ annotation trees

  /** Annotation `x` hangs, directly or through other annotations, off `root`. */
  ghost predicate Desc(anns: map<NodeId, AnnotationNode>, x: NodeId, root: Annotatable)
    decreases x
  {
    x in anns &&
    (anns[x].owner == root
     || (anns[x].owner.OfAnnotation? && anns[x].owner.annotation < x
         && Desc(anns, anns[x].owner.annotation, root)))
  }

  /** A descendant of an annotation was created after it. */
  lemma {:induction false} DescIsLater(anns: map<NodeId, AnnotationNode>, y: NodeId, r: NodeId)
    requires ParentsBeforeChildren(anns)
    requires Desc(anns, y, OfAnnotation(r))
    ensures r < y
    decreases y
  {
    if anns[y].owner != OfAnnotation(r) {
      DescIsLater(anns, anns[y].owner.annotation, r);
    }
  }

  /** Of two different annotations on the same annotatable, neither hangs off the
      other. */
  lemma SiblingNotBelow(anns: map<NodeId, AnnotationNode>, c: NodeId, c': NodeId)
    requires ParentsBeforeChildren(anns)
    requires c in anns && c' in anns && anns[c].owner == anns[c'].owner && c != c'
    ensures !Desc(anns, c, OfAnnotation(c'))
  {
    var root := anns[c].owner;
    if root.OfAnnotation? {
      assert root.annotation < c';
      if Desc(anns, root.annotation, OfAnnotation(c')) {
        DescIsLater(anns, root.annotation, c');
      }
    }
  }

  /** The subtrees of two different annotations on the same annotatable are
      disjoint. */
  lemma {:induction false} SiblingSubtreesDisjoint(
    anns: map<NodeId, AnnotationNode>, y: NodeId, c: NodeId, c': NodeId)
    requires ParentsBeforeChildren(anns)
    requires c in anns && c' in anns && anns[c].owner == anns[c'].owner && c != c'
    requires Desc(anns, y, OfAnnotation(c))
    ensures !Desc(anns, y, OfAnnotation(c'))
    decreases y
  {
    var o := anns[y].owner;
    if o == OfAnnotation(c) {
      SiblingNotBelow(anns, c, c');
    } else {
      var p := o.annotation;
      if p == c' {
        SiblingNotBelow(anns, c', c);
      } else {
        SiblingSubtreesDisjoint(anns, p, c, c');
      }
    }
  }

  /** Removing entries never creates a descendant. */
  lemma {:induction false} DescOfSubMap(
    small: map<NodeId, AnnotationNode>, big: map<NodeId, AnnotationNode>, x: NodeId, root: Annotatable)
    requires SubMap(small, big)
    requires Desc(small, x, root)
    ensures Desc(big, x, root)
    decreases x
  {
    if small[x].owner != root {
      DescOfSubMap(small, big, small[x].owner.annotation, root);
    }
  }

  /** A descendant of `root` is one of its direct annotations or a descendant of
      one of them, and conversely. */
  lemma {:induction false} DescViaChild(anns: map<NodeId, AnnotationNode>, x: NodeId, root: Annotatable)
    requires ParentsBeforeChildren(anns)
    ensures Desc(anns, x, root) <==>
      (x in anns && anns[x].owner == root)
      || exists c :: c in anns && anns[c].owner == root && Desc(anns, x, OfAnnotation(c))
    decreases x
  {
    if x in anns && anns[x].owner != root && anns[x].owner.OfAnnotation? {
      var p := anns[x].owner.annotation;
      assert p < x;
      DescViaChild(anns, p, root);
      if Desc(anns, p, root) {
        if p in anns && anns[p].owner == root {
          assert Desc(anns, x, OfAnnotation(p));
        } else {
          var c :| c in anns && anns[c].owner == root && Desc(anns, p, OfAnnotation(c));
          assert Desc(anns, x, OfAnnotation(c));
        }
      }
      forall c | c in anns && anns[c].owner == root && Desc(anns, x, OfAnnotation(c))
        ensures Desc(anns, x, root)
      {
        if p != c {
          DescUnderChild(anns, p, c, root);
        }
      }
    }
  }

  /** A descendant of a direct annotation of `root` is a descendant of `root`. */
  lemma {:induction false} DescUnderChild(anns: map<NodeId, AnnotationNode>, x: NodeId, c: NodeId, root: Annotatable)
    requires ParentsBeforeChildren(anns)
    requires c in anns && anns[c].owner == root
    requires Desc(anns, x, OfAnnotation(c))
    ensures Desc(anns, x, root)
    decreases x
  {
    DescIsLater(anns, x, c);
    if anns[x].owner != OfAnnotation(c) {
      DescUnderChild(anns, anns[x].owner.annotation, c, root);
    }
  }

  /** While the subtrees of some sibling annotations `done` are removed from `big`,
      the subtree of another sibling `c` is the same in what is left. */
  lemma {:induction false} SubtreeSurvivesSiblingDeletes(
    big: map<NodeId, AnnotationNode>, small: map<NodeId, AnnotationNode>,
    x: NodeId, c: NodeId, done: set<NodeId>)
    requires ParentsBeforeChildren(big)
    requires SubMap(small, big)
    requires c in big && c !in done
    requires forall d :: d in done ==> d in big && big[d].owner == big[c].owner
    requires forall y :: y in big ==>
      (y in small <==> !exists d :: d in done && Desc(big, y, OfAnnotation(d)))
    requires x in small && Desc(big, x, OfAnnotation(c))
    ensures Desc(small, x, OfAnnotation(c))
    decreases x
  {
    if big[x].owner != OfAnnotation(c) {
      var p := big[x].owner.annotation;
      forall d | d in done ensures !Desc(big, p, OfAnnotation(d)) {
        SiblingSubtreesDisjoint(big, p, c, d);
      }
      SubtreeSurvivesSiblingDeletes(big, small, p, c, done);
    }
  }

  /** The annotations directly on `root`. */
  function Children(anns: map<NodeId, AnnotationNode>, root: Annotatable): set<NodeId> {
    set c | c in anns && anns[c].owner == root
  }

  /** What is left after the subtrees of the siblings `done` were removed from
      `all`. */
  ghost predicate LeftAfter(left: map<NodeId, AnnotationNode>, all: map<NodeId, AnnotationNode>, done: set<NodeId>) {
    && SubMap(left, all)
    && forall x :: x in all ==> (x in left <==> !exists d :: d in done && Desc(all, x, OfAnnotation(d)))
  }

  /** A sibling not yet handled is still there. */
  lemma UnhandledChildRemains(
    all: map<NodeId, AnnotationNode>, left: map<NodeId, AnnotationNode>, root: Annotatable,
    done: set<NodeId>, c: NodeId)
    requires ParentsBeforeChildren(all)
    requires done <= Children(all, root) && c in Children(all, root) && c !in done
    requires LeftAfter(left, all, done)
    ensures c in left
  {
    forall d | d in done ensures !Desc(all, c, OfAnnotation(d)) {
      SiblingNotBelow(all, c, d);
    }
  }

  /** Removing the subtree of one more sibling `c`, as computed on what is left,
      removes its subtree as computed on `all`. */
  lemma OneMoreSubtreeRemoved(
    all: map<NodeId, AnnotationNode>, before: map<NodeId, AnnotationNode>, after: map<NodeId, AnnotationNode>,
    root: Annotatable, done: set<NodeId>, c: NodeId)
    requires ParentsBeforeChildren(all)
    requires done <= Children(all, root) && c in Children(all, root) && c !in done
    requires LeftAfter(before, all, done)
    requires SubMap(after, before)
    requires forall x :: x in before ==> (x in after <==> !Desc(before, x, OfAnnotation(c)))
    ensures LeftAfter(after, all, done + {c})
  {
    forall x | x in before
      ensures Desc(before, x, OfAnnotation(c)) <==> Desc(all, x, OfAnnotation(c))
    {
      if Desc(before, x, OfAnnotation(c)) {
        DescOfSubMap(before, all, x, OfAnnotation(c));
      }
      if Desc(all, x, OfAnnotation(c)) {
        SubtreeSurvivesSiblingDeletes(all, before, x, c, done);
      }
    }
  }

  /** Once every child's subtree is gone, removing the children themselves leaves
      exactly the annotations not below `root`, every owner still present. */
  lemma ChildrenRemovedLast(
    all: map<NodeId, AnnotationNode>, left: map<NodeId, AnnotationNode>, root: Annotatable,
    versionIds: set<NodeId>)
    requires ParentsBeforeChildren(all)
    requires LeftAfter(left, all, Children(all, root))
    requires OwnersExist(left, versionIds)
    ensures forall x :: x in all ==> (x in left - Children(all, root) <==> !Desc(all, x, root))
    ensures OwnersExist(left - Children(all, root), versionIds)
    ensures root.OfAnnotation? && root.annotation in all ==> root.annotation in left - Children(all, root)
  {
    var children := Children(all, root);
    var result := left - children;
    forall x | x in all ensures x in result <==> !Desc(all, x, root) {
      DescViaChild(all, x, root);
    }
    forall x | x in result && result[x].owner.OfAnnotation?
      ensures result[x].owner.annotation in result
    {
      var p := result[x].owner.annotation;
      assert p in left;
      assert !Desc(all, x, root);
      assert !Desc(all, p, root);
    }
    if root.OfAnnotation? && root.annotation in all {
      if Desc(all, root.annotation, root) {
        DescIsLater(all, root.annotation, root.annotation);
      }
    }
  }

  /** The rank that the recursion of deleteAnnotations decreases: a version is
      above every annotation, and an annotation above the later ones. */
  function Rank(g: Graph, root: Annotatable): int
    reads g
  {
    match root
    case OfVersion(_) => g.nextNodeId + 1
    case OfAnnotation(a) => g.nextNodeId - a
  }

  /** deleteAnnotations(annotatable): first, for each annotation on the
      annotatable, delete that annotation's own annotations, recursively; then
      delete the annotations on the annotatable. Exactly the annotations that hang
      off `root`, directly or not, are removed; `root` itself stays. */
  method DeleteAnnotations(g: Graph, root: Annotatable)
    requires g.Valid()
    requires root.OfAnnotation? ==> root.annotation < g.nextNodeId
    modifies g`annotations
    ensures g.Valid()
    ensures SubMap(g.annotations, old(g.annotations))
    ensures forall x :: x in old(g.annotations) ==>
      (x in g.annotations <==> !Desc(old(g.annotations), x, root))
    ensures root.OfAnnotation? && root.annotation in old(g.annotations) ==> root.annotation in g.annotations
    decreases Rank(g, root), 1
  {
    ghost var all := g.annotations;
    var children := Children(g.annotations, root);
    var todo := children;
    while exists c :: c in todo
      invariant todo <= children
      invariant g.Valid() && g.nextNodeId == old(g.nextNodeId)
      invariant LeftAfter(g.annotations, all, children - todo)
      decreases todo
    {
      var c :| c in todo;
      DeleteChildSubtree(g, root, all, children - todo, c);
      assert children - (todo - {c}) == (children - todo) + {c};
      todo := todo - {c};
    }
    assert children - todo == children;
    ChildrenRemovedLast(all, g.annotations, root, g.versions.Keys);
    FewerAnnotationsStayValid(g.classes, g.versions, g.currentEdges, g.annotations, g.annotations - children,
                              g.expressions, g.nextNodeId);
    g.annotations := g.annotations - children;
  }

  /** One turn of deleteAnnotations' loop: the annotations below the child `c`
      of `root` are deleted, after those below the siblings `done`. */
  method DeleteChildSubtree(
    g: Graph, root: Annotatable, ghost all: map<NodeId, AnnotationNode>, ghost done: set<NodeId>, c: NodeId)
    requires g.Valid() && ParentsBeforeChildren(all)
    requires root.OfAnnotation? ==> root.annotation < g.nextNodeId
    requires done <= Children(all, root) && c in Children(all, root) && c !in done
    requires LeftAfter(g.annotations, all, done)
    modifies g`annotations
    ensures g.Valid()
    ensures LeftAfter(g.annotations, all, done + {c})
    decreases Rank(g, root), 0
  {
    UnhandledChildRemains(all, g.annotations, root, done, c);
    ghost var before := g.annotations;
    DeleteAnnotations(g, OfAnnotation(c));
    OneMoreSubtreeRemoved(all, before, g.annotations, root, done, c);
  }

  // ------------------------------------------------------------ class versions

  /** An annotation before it is attached to a version node. */
  datatype AnnotationDraft = AnnotationDraft(
    property: string, dataType: string, stringValue: string, language: Option<string>, index: Option<int>)

  function DraftOf(a: AnnotationNode): AnnotationDraft {
    AnnotationDraft(a.property, a.dataType, a.stringValue, a.language, a.index)
  }

  function Attach(d: AnnotationDraft, owner: Annotatable): (a: AnnotationNode)
    ensures DraftOf(a) == d && a.owner == owner
  {
    AnnotationNode(owner, d.property, d.dataType, d.stringValue, d.language, d.index)
  }

  /** The texts of the drafts with property `p`. */
  function DraftTexts(drafts: set<AnnotationDraft>, p: string): set<LocalisableText> {
    set d | d in drafts && d.property == p :: LocalisableText(d.stringValue, d.language)
  }

  /** new Annotation(p, text, lang, null) for each text: a string annotation
      without index. */
  function TextDrafts(p: string, texts: seq<LocalisableText>): set<AnnotationDraft> {
    set t | t in texts :: AnnotationDraft(p, "string", t.text, t.lang, None)
  }

  /** buildClassVersion(entity): the annotations of a new class version, one per
      distinct title, synonym and description. */
  function BuildClassVersion(entity: Entity): (r: set<AnnotationDraft>)
    ensures forall d :: d in r ==>
      d.dataType == "string" && d.index == None && d.property in {"title", "synonym", "description"}
    ensures DraftTexts(r, "title") == set t | t in entity.titles
    ensures DraftTexts(r, "synonym") == set t | t in entity.synonyms
    ensures DraftTexts(r, "description") == set t | t in entity.descriptions
  {
    var r := TextDrafts("title", entity.titles) + TextDrafts("synonym", entity.synonyms)
      + TextDrafts("description", entity.descriptions);
    assert forall t :: t in DraftTexts(r, "title") <==> t in entity.titles by {
      forall t ensures t in DraftTexts(r, "title") <==> t in entity.titles {
        if t in entity.titles {
          assert AnnotationDraft("title", "string", t.text, t.lang, None) in r;
        }
      }
    }
    assert forall t :: t in DraftTexts(r, "synonym") <==> t in entity.synonyms by {
      forall t ensures t in DraftTexts(r, "synonym") <==> t in entity.synonyms {
        if t in entity.synonyms {
          assert AnnotationDraft("synonym", "string", t.text, t.lang, None) in r;
        }
      }
    }
    assert forall t :: t in DraftTexts(r, "description") <==> t in entity.descriptions by {
      forall t ensures t in DraftTexts(r, "description") <==> t in entity.descriptions {
        if t in entity.descriptions {
          assert AnnotationDraft("description", "string", t.text, t.lang, None) in r;
        }
      }
    }
    r
  }

  /** The drafts of the annotations hanging directly off version `k`. */
  function DraftsOn(anns: map<NodeId, AnnotationNode>, k: NodeId): set<AnnotationDraft> {
    set a | a in anns && anns[a].owner == OfVersion(k) :: DraftOf(anns[a])
  }

  /** Attaching one more annotation to version `k` adds its draft. */
  lemma DraftsOnAttach(anns: map<NodeId, AnnotationNode>, k: NodeId, a: NodeId, d: AnnotationDraft)
    requires a !in anns
    ensures DraftsOn(anns[a := Attach(d, OfVersion(k))], k) == DraftsOn(anns, k) + {d}
  {
    var anns' := anns[a := Attach(d, OfVersion(k))];
    forall x | x in DraftsOn(anns', k) ensures x in DraftsOn(anns, k) + {d} {
      var b :| b in anns' && anns'[b].owner == OfVersion(k) && DraftOf(anns'[b]) == x;
      if b != a { assert b in anns && anns[b].owner == OfVersion(k); }
    }
    assert a in anns' && anns'[a].owner == OfVersion(k);
    forall x | x in DraftsOn(anns, k) ensures x in DraftsOn(anns', k) {
      var b :| b in anns && anns[b].owner == OfVersion(k) && DraftOf(anns[b]) == x;
      assert b in anns' && anns'[b] == anns[b];
    }
  }

  /** Stores each draft as a fresh annotation node on version `k`. */
  method AttachAnnotations(g: Graph, k: NodeId, drafts: set<AnnotationDraft>)
    requires g.Valid() && k in g.versions && DraftsOn(g.annotations, k) == {}
    modifies g`annotations, g`nextNodeId
    ensures g.Valid()
    ensures DraftsOn(g.annotations, k) == drafts
    ensures SubMap(old(g.annotations), g.annotations)
    ensures forall a :: a in g.annotations && a !in old(g.annotations) ==> g.annotations[a].owner == OfVersion(k)
  {
    var todo := drafts;
    while exists d :: d in todo
      invariant todo <= drafts
      invariant g.Valid()
      invariant DraftsOn(g.annotations, k) == drafts - todo
      invariant SubMap(old(g.annotations), g.annotations)
      invariant forall a :: a in g.annotations && a !in old(g.annotations) ==> g.annotations[a].owner == OfVersion(k)
      decreases todo
    {
      var d :| d in todo;
      var a := g.nextNodeId;
      ghost var before := g.annotations;
      NewAnnotationStaysValid(g.classes, g.versions, g.currentEdges, g.annotations, g.expressions, g.nextNodeId,
                              Attach(d, OfVersion(k)));
      g.annotations := g.annotations[a := Attach(d, OfVersion(k))];
      g.nextNodeId := g.nextNodeId + 1;
      DraftsOnAttach(before, k, a, d);
      todo := todo - {d};
    }
    assert todo == {};
  }

  /** Class.createVersion(version, true): the new version node takes the next
      version number of the class (getNextVersion), its annotations become fresh
      annotation nodes on it, and it becomes the class's only current version. */
  method CreateVersion(g: Graph, c: ClassId, drafts: set<AnnotationDraft>) returns (k: NodeId)
    requires g.Valid() && c in g.classes
    modifies g
    ensures g.Valid()
    ensures k !in old(g.versions)
    ensures g.versions == old(g.versions)[k := ClassVersionNode(c, ClassRepository.GetNextVersion(old(g.classes), old(g.versions), c), false)]
    ensures DraftsOn(g.annotations, k) == drafts
    ensures SubMap(old(g.annotations), g.annotations)
    ensures forall a :: a in g.annotations && a !in old(g.annotations) ==> g.annotations[a].owner == OfVersion(k)
    ensures CurrentVersion(g.currentEdges, c) == Some(k)
    ensures forall d, v :: d != c ==> ((d, v) in g.currentEdges <==> (d, v) in old(g.currentEdges))
    ensures g.classes == old(g.classes) && g.subclassEdges == old(g.subclassEdges)
    ensures g.expressions == old(g.expressions)
    ensures g.belongsTo == old(g.belongsTo) && g.repositories == old(g.repositories)
    ensures g.directories == old(g.directories)
  {
    k := AddVersionNode(g, c);
    AttachAnnotations(g, k, drafts);
    ClassRepository.SetCurrent(g, c, k);
  }

  /** The new version node of createVersion, numbered after the class's
      highest, under the next free id and still without annotations. */
  method AddVersionNode(g: Graph, c: ClassId) returns (k: NodeId)
    requires g.Valid() && c in g.classes
    modifies g`versions, g`nextNodeId
    ensures g.Valid()
    ensures k !in old(g.versions) && g.nextNodeId == k + 1
    ensures g.versions == old(g.versions)[k := ClassVersionNode(c, ClassRepository.GetNextVersion(old(g.classes), old(g.versions), c), false)]
    ensures DraftsOn(g.annotations, k) == {}
  {
    k := g.nextNodeId;
    var n := ClassRepository.GetNextVersion(g.classes, g.versions, c);
    ClassRepository.NextVersionIsUnused(g.classes, g.versions, c, k, false);
    NewVersionStaysValid(g.classes, g.versions, g.currentEdges, g.annotations, g.expressions, g.nextNodeId,
                         ClassVersionNode(c, n, false));
    assert DraftsOn(g.annotations, k) == {} by {
      forall a | a in g.annotations ensures g.annotations[a].owner != OfVersion(k) {
        assert g.annotations[a].owner.OfVersion? ==> g.annotations[a].owner.version in g.versions;
      }
    }
    g.versions := g.versions[k := ClassVersionNode(c, n, false)];
    g.nextNodeId := g.nextNodeId + 1;
  }

  // ------------------------------------------------------------ entity views

  /** The API entity built from a class version. */
  datatype EntityView = EntityView(
    id: ClassId, version: int, index: Option<int>, hidden: bool,
    titles: set<LocalisableText>, synonyms: set<LocalisableText>, descriptions: set<LocalisableText>)

  /** The index of the class's first super-class relation, null without one. Java
      reads it from a Set, so "first" is some relation of the class; the model
      takes the first one in relation order. */
  function FirstSuperIndex(edges: seq<SubclassEdge>, c: ClassId): (r: Option<int>)
    ensures (forall i :: 0 <= i < |edges| ==> edges[i].sub != c) ==> r == None
    ensures (exists i :: 0 <= i < |edges| && edges[i].sub == c) ==>
      exists i :: 0 <= i < |edges| && edges[i].sub == c && r == edges[i].index
                  && forall j :: 0 <= j < i ==> edges[j].sub != c
  {
    if edges == [] then None
    else if edges[0].sub == c then edges[0].index
    else
      var r := FirstSuperIndex(edges[1..], c);
      assert forall i :: 1 <= i < |edges| ==> edges[i] == edges[1..][i - 1];
      if exists i :: 0 <= i < |edges| && edges[i].sub == c then
        var i :| 0 <= i < |edges| && edges[i].sub == c;
        assert edges[1..][i - 1].sub == c;
        var i' :| 0 <= i' < |edges[1..]| && edges[1..][i'].sub == c && r == edges[1..][i'].index
                  && forall j :: 0 <= j < i' ==> edges[1..][j].sub != c;
        assert forall j :: 0 <= j < i' + 1 ==> edges[j].sub != c by {
          forall j | 0 <= j < i' + 1 ensures edges[j].sub != c {
            if j > 0 { assert edges[j] == edges[1..][j - 1]; }
          }
        }
        r
      else r
  }

  /** annotationRepository.findByClassVersionAndProperty(version, p), each read as
      a localisable text (string value and language). */
  function TextsOn(anns: map<NodeId, AnnotationNode>, k: NodeId, p: string): set<LocalisableText> {
    set a | a in anns && anns[a].owner == OfVersion(k) && anns[a].property == p
      :: LocalisableText(anns[a].stringValue, anns[a].language)
  }

  /** The texts of a version are the texts of the drafts attached to it. */
  lemma TextsOnAreDraftTexts(anns: map<NodeId, AnnotationNode>, k: NodeId, p: string)
    ensures TextsOn(anns, k, p) == DraftTexts(DraftsOn(anns, k), p)
  {
    forall t | t in DraftTexts(DraftsOn(anns, k), p) ensures t in TextsOn(anns, k, p) {
      var d :| d in DraftsOn(anns, k) && d.property == p && t == LocalisableText(d.stringValue, d.language);
      var a :| a in anns && anns[a].owner == OfVersion(k) && DraftOf(anns[a]) == d;
    }
    forall t | t in TextsOn(anns, k, p) ensures t in DraftTexts(DraftsOn(anns, k), p) {
      var a :| a in anns && anns[a].owner == OfVersion(k) && anns[a].property == p
        && t == LocalisableText(anns[a].stringValue, anns[a].language);
      assert DraftOf(anns[a]) in DraftsOn(anns, k);
    }
  }

  /** classVersionToEntity(classVersion). */
  function ClassVersionToEntity(g: Graph, k: NodeId): (r: EntityView)
    reads g
    requires k in g.versions
    ensures r.id == g.versions[k].classId && r.version == g.versions[k].version
    ensures r.hidden == g.versions[k].hidden
    ensures r.index == FirstSuperIndex(g.subclassEdges, g.versions[k].classId)
    ensures r.titles == DraftTexts(DraftsOn(g.annotations, k), "title")
    ensures r.synonyms == DraftTexts(DraftsOn(g.annotations, k), "synonym")
    ensures r.descriptions == DraftTexts(DraftsOn(g.annotations, k), "description")
  {
    var v := g.versions[k];
    TextsOnAreDraftTexts(g.annotations, k, "title");
    TextsOnAreDraftTexts(g.annotations, k, "synonym");
    TextsOnAreDraftTexts(g.annotations, k, "description");
    EntityView(v.classId, v.version, FirstSuperIndex(g.subclassEdges, v.classId), v.hidden,
               TextsOn(g.annotations, k, "title"), TextsOn(g.annotations, k, "synonym"),
               TextsOn(g.annotations, k, "description"))
  }

  /** The version an operation addresses: the current one for a null version
      number, otherwise the class's version with that number. */
  function SelectVersion(g: Graph, id: ClassId, version: Option<int>): (r: Option<NodeId>)
    reads g
    requires g.Valid()
    ensures version.None? ==> r == CurrentVersion(g.currentEdges, id)
    ensures version.Some? && r.Some? ==>
      r.value in g.versions && g.versions[r.value].classId == id && g.versions[r.value].version == version.value
    ensures version.Some? && r.None? ==>
      forall k :: k in g.versions ==> !(g.versions[k].classId == id && g.versions[k].version == version.value)
  {
    match version
    case None => CurrentVersion(g.currentEdges, id)
    case Some(n) => VersionNumbered(g.versions, id, n)
  }

  /** classToEntity(cls): the entity of the class's current version;
      INTERNAL_SERVER_ERROR when the class has none. */
  function ClassToEntity(g: Graph, c: ClassId): (r: Result<EntityView>)
    reads g
    requires g.Valid()
    ensures r.Ok? <==> CurrentVersion(g.currentEdges, c).Some?
    ensures r.Ok? ==> r.value == ClassVersionToEntity(g, CurrentVersion(g.currentEdges, c).value)
    ensures r.Fail? ==> r.status == InternalServerError
  {
    match CurrentVersion(g.currentEdges, c)
    case None => Fail(InternalServerError)
    case Some(k) => Ok(ClassVersionToEntity(g, k))
  }

  /** loadEntity(organisationName, repositoryName, id, version): NOT_FOUND for an
      unknown class or a missing version; otherwise the addressed version as an
      entity. The organisation and repository names are not consulted. */
  function LoadEntity(g: Graph, id: ClassId, version: Option<int>): (r: Result<EntityView>)
    reads g
    requires g.Valid()
    ensures r.Ok? <==> id in g.classes && SelectVersion(g, id, version).Some?
    ensures r.Fail? ==> r.status == NotFound
    ensures r.Ok? ==> r.value == ClassVersionToEntity(g, SelectVersion(g, id, version).value)
    ensures r.Ok? && version.Some? ==> r.value.id == id && r.value.version == version.value
  {
    if id !in g.classes then Fail(NotFound)
    else
      match SelectVersion(g, id, version)
      case None => Fail(NotFound)
      case Some(k) => Ok(ClassVersionToEntity(g, k))
  }

  /** The IS_SUBCLASS_OF relations createEntity adds: one per super-class id, owned
      by the repository and carrying the entity's index. */
  function SuperRelations(entity: Entity, repositoryName: string): (r: seq<SubclassEdge>)
    ensures |r| == |SuperIds(entity)|
    ensures forall i :: 0 <= i < |r| ==>
      r[i] == SubclassEdge(entity.id, SuperIds(entity)[i], repositoryName, entity.index)
  {
    var ids := SuperIds(entity);
    seq(|ids|, i requires 0 <= i < |ids| => SubclassEdge(entity.id, ids[i], repositoryName, entity.index))
  }

  // ------------------------------------------------------------ service operations

  /** Appends the relations to the graph's IS_SUBCLASS_OF relations, one by one. */
  method AppendRelations(g: Graph, rels: seq<SubclassEdge>)
    modifies g`subclassEdges
    ensures g.subclassEdges == old(g.subclassEdges) + rels
  {
    var i := 0;
    while i < |rels|
      invariant 0 <= i <= |rels|
      invariant g.subclassEdges == old(g.subclassEdges) + rels[..i]
    {
      g.subclassEdges := g.subclassEdges + [rels[i]];
      assert rels[..i + 1] == rels[..i] + [rels[i]];
      i := i + 1;
    }
    assert rels[..i] == rels;
  }

  /** createEntity(organisationName, repositoryName, entity): CONFLICT when the
      class id is taken, NOT_FOUND unless the repository belongs, directly or
      transitively, to the organisation; otherwise a new class of the repository
      with a first current version and one IS_SUBCLASS_OF relation per super-class
      id. */
  method CreateEntity(g: Graph, organisationName: string, repositoryName: string, entity: Entity)
    returns (r: Result<EntityView>)
    requires g.Valid()
    modifies g
    ensures g.Valid()
    ensures entity.id in old(g.classes) ==> r == Fail(Conflict) && unchanged(g)
    ensures entity.id !in old(g.classes)
            && RepositoryRepository.FindByIdAndSuperDirectoryId(
                 old(g.repositories), old(g.directories), old(g.belongsTo), repositoryName, organisationName).None?
            ==> r == Fail(NotFound) && unchanged(g)
    ensures r.Ok? ==>
      && entity.id !in old(g.classes)
      && RepositoryRepository.FindByIdAndSuperDirectoryId(
           old(g.repositories), old(g.directories), old(g.belongsTo), repositoryName, organisationName).Some?
      && g.classes == old(g.classes)[entity.id := ClassNode(Some(repositoryName), None)]
      && g.subclassEdges == old(g.subclassEdges) + SuperRelations(entity, repositoryName)
      && CurrentVersion(g.currentEdges, entity.id).Some?
      && var k := CurrentVersion(g.currentEdges, entity.id).value;
         && k in g.versions && k !in old(g.versions)
         && g.versions == old(g.versions)[k := ClassVersionNode(entity.id, 1, false)]
         && r.value == ClassVersionToEntity(g, k)
         && r.value.version == 1
         && r.value.titles == (set t | t in entity.titles)
         && r.value.synonyms == (set t | t in entity.synonyms)
         && r.value.descriptions == (set t | t in entity.descriptions)
    ensures r.Ok? ==> r == LoadEntity(g, entity.id, None) && r == LoadEntity(g, entity.id, Some(1))
    ensures r.Fail? ==> unchanged(g)
  {
    if entity.id in g.classes {
      return Fail(Conflict);
    }
    if RepositoryRepository.FindByIdAndSuperDirectoryId(
         g.repositories, g.directories, g.belongsTo, repositoryName, organisationName).None? {
      return Fail(NotFound);
    }
    g.classes := g.classes[entity.id := ClassNode(Some(repositoryName), None)];
    assert ClassRepository.VersionNumbers(g.versions, entity.id) == {} by {
      forall k | k in g.versions ensures g.versions[k].classId != entity.id {
        assert g.versions[k].classId in old(g.classes);
      }
    }
    var k := CreateVersion(g, entity.id, BuildClassVersion(entity));
    AppendRelations(g, SuperRelations(entity, repositoryName));
    r := ClassToEntity(g, entity.id);
  }

  /** Hiding a version leaves every version addressable by its number as before:
      a hidden version still loads. */
  lemma HidingKeepsNumbers(versions: map<NodeId, ClassVersionNode>, k: NodeId, c: ClassId, n: int)
    requires VersionNumbersUnique(versions) && k in versions
    ensures VersionNumbersUnique(versions[k := versions[k].(hidden := true)])
    ensures VersionNumbered(versions[k := versions[k].(hidden := true)], c, n) == VersionNumbered(versions, c, n)
  {
    var hidden := versions[k := versions[k].(hidden := true)];
    var before := VersionNumbered(versions, c, n);
    var after := VersionNumbered(hidden, c, n);
    if before.Some? {
      assert hidden[before.value].classId == c && hidden[before.value].version == n;
    }
  }

  /** Deleting a version leaves every other version addressable by its number as
      before, and the deleted one by none. */
  lemma DeletingKeepsOtherNumbers(versions: map<NodeId, ClassVersionNode>, k: NodeId, c: ClassId, n: int)
    requires VersionNumbersUnique(versions) && k in versions
    ensures VersionNumbersUnique(versions - {k})
    ensures VersionNumbered(versions - {k}, c, n) ==
      (if versions[k].classId == c && versions[k].version == n then None else VersionNumbered(versions, c, n))
  {
    var before := VersionNumbered(versions, c, n);
    if before.Some? && before.value != k {
      assert before.value in versions - {k};
    }
  }

  /** deleteEntity(organisationName, repositoryName, id, version, permanent):
      NOT_FOUND for an unknown class or a missing version (the current one when
      no number is given). A permanent delete removes the version's annotations
      with everything that hangs off them, its expressions and the version node
      with its relationships; otherwise the version is hidden, once. */
  method DeleteEntity(g: Graph, id: ClassId, version: Option<int>, permanent: bool) returns (r: Result<()>)
    requires g.Valid()
    modifies g
    ensures g.Valid()
    ensures r.Fail? <==> id !in old(g.classes) || old(SelectVersion(g, id, version)).None?
    ensures r.Fail? ==> r.status == NotFound && unchanged(g)
    ensures r.Ok? && permanent ==>
      var k := old(SelectVersion(g, id, version)).value;
      && g.versions == old(g.versions) - {k}
      && g.currentEdges == DetachVersion(old(g.currentEdges), k)
      && g.expressions == ExpressionsWithout(old(g.expressions), k)
      && SubMap(g.annotations, old(g.annotations))
      && (forall x :: x in old(g.annotations) ==>
            (x in g.annotations <==> !Desc(old(g.annotations), x, OfVersion(k))))
      && (forall x :: x in g.annotations ==> g.annotations[x].owner != OfVersion(k))
      && g.classes == old(g.classes) && g.subclassEdges == old(g.subclassEdges)
      && g.nextNodeId == old(g.nextNodeId)
    ensures r.Ok? && !permanent ==>
      var k := old(SelectVersion(g, id, version)).value;
      && g.versions == old(g.versions)[k := old(g.versions)[k].(hidden := true)]
      && g.classes == old(g.classes) && g.currentEdges == old(g.currentEdges)
      && g.annotations == old(g.annotations) && g.expressions == old(g.expressions)
      && g.subclassEdges == old(g.subclassEdges) && g.nextNodeId == old(g.nextNodeId)
    ensures g.belongsTo == old(g.belongsTo) && g.repositories == old(g.repositories)
    ensures g.directories == old(g.directories)
  {
    if id !in g.classes {
      return Fail(NotFound);
    }
    var selected := SelectVersion(g, id, version);
    if selected.None? {
      return Fail(NotFound);
    }
    var k := selected.value;
    if permanent {
      DeleteVersionNode(g, k);
    } else {
      HideVersion(g, k);
    }
    return Ok(());
  }

  /** The permanent branch of deleteEntity: the annotations hanging off version
      `k`, its expressions and the version node with its relationships go. */
  method DeleteVersionNode(g: Graph, k: NodeId)
    requires g.Valid() && k in g.versions
    modifies g
    ensures g.Valid()
    ensures g.versions == old(g.versions) - {k}
    ensures g.currentEdges == DetachVersion(old(g.currentEdges), k)
    ensures g.expressions == ExpressionsWithout(old(g.expressions), k)
    ensures SubMap(g.annotations, old(g.annotations))
    ensures forall x :: x in old(g.annotations) ==> (x in g.annotations <==> !Desc(old(g.annotations), x, OfVersion(k)))
    ensures forall x :: x in g.annotations ==> g.annotations[x].owner != OfVersion(k)
    ensures g.classes == old(g.classes) && g.subclassEdges == old(g.subclassEdges)
    ensures g.nextNodeId == old(g.nextNodeId)
    ensures g.belongsTo == old(g.belongsTo) && g.repositories == old(g.repositories)
    ensures g.directories == old(g.directories)
  {
    DeleteAnnotations(g, OfVersion(k));
    forall x | x in g.annotations ensures g.annotations[x].owner != OfVersion(k) {
      assert x in old(g.annotations) && !Desc(old(g.annotations), x, OfVersion(k));
    }
    RemoveVersionStaysValid(g.classes, g.versions, g.currentEdges, g.annotations, g.expressions, g.nextNodeId, k);
    g.expressions := ExpressionsWithout(g.expressions, k);
    g.versions := g.versions - {k};
    g.currentEdges := DetachVersion(g.currentEdges, k);
  }

  /** The other branch of deleteEntity: version `k` is marked hidden, once. */
  method HideVersion(g: Graph, k: NodeId)
    requires g.Valid() && k in g.versions
    modifies g`versions
    ensures g.Valid()
    ensures g.versions == old(g.versions)[k := old(g.versions)[k].(hidden := true)]
  {
    if !g.versions[k].hidden {
      HideStaysValid(g.classes, g.versions, g.currentEdges, g.annotations, g.expressions, g.nextNodeId, k);
      g.versions := g.versions[k := g.versions[k].(hidden := true)];
    } else {
      assert g.versions[k] == g.versions[k].(hidden := true);
    }
  }

  /** updateEntityById(organisationName, repositoryName, id, entity, include):
      NOT_FOUND for an unknown class; otherwise the entity's texts become a new
      version, numbered after the class's highest, which becomes current, and the
      result is that version as an entity. */
  method UpdateEntityById(g: Graph, id: ClassId, entity: Entity) returns (r: Result<EntityView>)
    requires g.Valid()
    modifies g
    ensures g.Valid()
    ensures id !in old(g.classes) <==> r.Fail?
    ensures r.Fail? ==> r == Fail(NotFound) && unchanged(g)
    ensures r.Ok? ==>
      && r == LoadEntity(g, id, None)
      && r.value.id == id
      && r.value.version == ClassRepository.GetNextVersion(old(g.classes), old(g.versions), id)
      && (forall n :: n in ClassRepository.VersionNumbers(old(g.versions), id) ==> n < r.value.version)
      && !r.value.hidden
      && r.value.titles == (set t | t in entity.titles)
      && r.value.synonyms == (set t | t in entity.synonyms)
      && r.value.descriptions == (set t | t in entity.descriptions)
      && SubMap(old(g.versions), g.versions)
      && SubMap(old(g.annotations), g.annotations)
      && g.classes == old(g.classes) && g.subclassEdges == old(g.subclassEdges)
  {
    if id !in g.classes {
      return Fail(NotFound);
    }
    var k := CreateVersion(g, id, BuildClassVersion(entity));
    r := ClassToEntity(g, id);
  }
}
