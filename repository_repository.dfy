/** The containment query of the repository repository: a repository is in a
    directory when a chain of one or more BELONGS_TO relations leads from the
    repository node to the directory node. */
module RepositoryRepository {
  import opened Outcomes

  /** A BELONGS_TO relation, from the contained node's id to the container's id. */
  type BelongsTo = (string, string)

  /** The nodes one BELONGS_TO step above some node of `s`. */
  function Successors(edges: set<BelongsTo>, s: set<string>): set<string> {
    set e | e in edges && e.0 in s :: e.1
  }

  /** Every node that is the container of some relation. */
  function Containers(edges: set<BelongsTo>): set<string> {
    set e | e in edges :: e.1
  }

  /** `b` is `n` BELONGS_TO steps above `a` (n >= 1), defined by the last step. */
  ghost predicate ReachIn(edges: set<BelongsTo>, a: string, b: string, n: nat)
    decreases n
  {
    if n == 0 then false
    else if n == 1 then (a, b) in edges
    else exists e :: e in edges && e.1 == b && ReachIn(edges, a, e.0, n - 1)
  }

  /** The Cypher pattern (a) -[:BELONGS_TO*]-> (b): a path of length at least 1. */
  ghost predicate Reachable(edges: set<BelongsTo>, a: string, b: string) {
    exists n: nat :: ReachIn(edges, a, b, n)
  }

  /** The least superset of `s` closed under BELONGS_TO steps. */
  function Closure(edges: set<BelongsTo>, s: set<string>): (r: set<string>)
    requires s <= Containers(edges)
    ensures s <= r <= Containers(edges)
    ensures Successors(edges, r) <= r
    decreases Containers(edges) - s
  {
    var next := Successors(edges, s);
    if next <= s then s
    else
      var x :| x in next && x !in s;
      assert Containers(edges) - (s + next) < Containers(edges) - s by {
        assert x in Containers(edges) - s;
      }
      Closure(edges, s + next)
  }

  /** The node ids reachable from `a` over one or more BELONGS_TO steps. */
  function Above(edges: set<BelongsTo>, a: string): set<string> {
    Closure(edges, Successors(edges, {a}))
  }

  /** findByIdAndSuperDirectoryId(repositoryId, superDirectoryId): the repository
      with that id, when a BELONGS_TO path leads from it to the directory with
      that id. */
  function FindByIdAndSuperDirectoryId(
    repositories: set<string>, directories: set<string>, edges: set<BelongsTo>,
    repositoryId: string, superDirectoryId: string): (r: Option<string>)
    ensures r.Some? ==> r.value == repositoryId && repositoryId in repositories
  {
    if repositoryId in repositories && superDirectoryId in directories
       && superDirectoryId in Above(edges, repositoryId)
    then Some(repositoryId)
    else None
  }

  /** One more step after a path of n steps is a path of n + 1 steps. */
  lemma {:induction false} ReachStep(edges: set<BelongsTo>, a: string, b: string, c: string, n: nat)
    requires ReachIn(edges, a, b, n) && (b, c) in edges
    ensures ReachIn(edges, a, c, n + 1)
  {
    assert n >= 1;
    var e := (b, c);
    assert e in edges && e.1 == c && ReachIn(edges, a, e.0, n);
  }

  /** Everything the closure adds to a reachable set is reachable too. */
  lemma {:induction false} ClosureSound(edges: set<BelongsTo>, a: string, s: set<string>)
    requires s <= Containers(edges)
    requires forall x :: x in s ==> Reachable(edges, a, x)
    ensures forall x :: x in Closure(edges, s) ==> Reachable(edges, a, x)
    decreases Containers(edges) - s
  {
    var next := Successors(edges, s);
    if !(next <= s) {
      forall y | y in next ensures Reachable(edges, a, y) {
        var e :| e in edges && e.0 in s && e.1 == y;
        var n: nat :| ReachIn(edges, a, e.0, n);
        ReachStep(edges, a, e.0, y, n);
      }
      var x :| x in next && x !in s;
      assert x in Containers(edges) - s;
      ClosureSound(edges, a, s + next);
    }
  }

  /** A set closed under BELONGS_TO steps that holds every direct container of
      `a` holds everything reachable from `a`. */
  lemma {:induction false} ClosedHoldsReach(
    edges: set<BelongsTo>, a: string, b: string, n: nat, r: set<string>)
    requires Successors(edges, {a}) <= r && Successors(edges, r) <= r
    requires ReachIn(edges, a, b, n)
    ensures b in r
    decreases n
  {
    if n == 1 {
      var e := (a, b);
      assert e in edges && e.0 in {a};
      assert b in Successors(edges, {a});
    } else {
      var e :| e in edges && e.1 == b && ReachIn(edges, a, e.0, n - 1);
      ClosedHoldsReach(edges, a, e.0, n - 1, r);
      assert b in Successors(edges, r);
    }
  }

  /** The computed set is exactly the set of nodes reachable from `a`. */
  lemma {:induction false} AboveIsReachable(edges: set<BelongsTo>, a: string, b: string)
    ensures b in Above(edges, a) <==> Reachable(edges, a, b)
  {
    var first := Successors(edges, {a});
    assert first <= Containers(edges);
    forall x | x in first ensures Reachable(edges, a, x) {
      assert ReachIn(edges, a, x, 1);
    }
    ClosureSound(edges, a, first);
    if Reachable(edges, a, b) {
      var n: nat :| ReachIn(edges, a, b, n);
      ClosedHoldsReach(edges, a, b, n, Above(edges, a));
    }
  }

  /** The repository is found exactly when both nodes exist and a BELONGS_TO path
      of length at least one leads from the repository to the directory. */
  lemma FoundIffPath(
    repositories: set<string>, directories: set<string>, edges: set<BelongsTo>,
    repositoryId: string, superDirectoryId: string)
    ensures FindByIdAndSuperDirectoryId(repositories, directories, edges, repositoryId, superDirectoryId).Some?
        <==> repositoryId in repositories && superDirectoryId in directories
             && Reachable(edges, repositoryId, superDirectoryId)
  {
    AboveIsReachable(edges, repositoryId, superDirectoryId);
  }

  /** A direct BELONGS_TO relation is enough. */
  lemma DirectMembershipFound(
    repositories: set<string>, directories: set<string>, edges: set<BelongsTo>,
    repositoryId: string, superDirectoryId: string)
    requires repositoryId in repositories && superDirectoryId in directories
    requires (repositoryId, superDirectoryId) in edges
    ensures FindByIdAndSuperDirectoryId(repositories, directories, edges, repositoryId, superDirectoryId)
         == Some(repositoryId)
  {
    assert ReachIn(edges, repositoryId, superDirectoryId, 1);
    FoundIffPath(repositories, directories, edges, repositoryId, superDirectoryId);
  }

  /** Paths compose: n steps followed by m steps are n + m steps. */
  lemma {:induction false} ReachTrans(edges: set<BelongsTo>, a: string, b: string, c: string, n: nat, m: nat)
    requires ReachIn(edges, a, b, n) && ReachIn(edges, b, c, m)
    ensures ReachIn(edges, a, c, n + m)
    decreases m
  {
    if m == 1 {
      ReachStep(edges, a, b, c, n);
    } else {
      var e :| e in edges && e.1 == c && ReachIn(edges, b, e.0, m - 1);
      ReachTrans(edges, a, b, e.0, n, m - 1);
      ReachStep(edges, a, e.0, c, n + m - 1);
    }
  }

  /** Containment is transitive through an intermediate directory. */
  lemma TransitiveMembershipFound(
    repositories: set<string>, directories: set<string>, edges: set<BelongsTo>,
    repositoryId: string, middle: string, superDirectoryId: string)
    requires repositoryId in repositories && superDirectoryId in directories
    requires Reachable(edges, repositoryId, middle) && Reachable(edges, middle, superDirectoryId)
    ensures FindByIdAndSuperDirectoryId(repositories, directories, edges, repositoryId, superDirectoryId)
         == Some(repositoryId)
  {
    var n: nat :| ReachIn(edges, repositoryId, middle, n);
    var m: nat :| ReachIn(edges, middle, superDirectoryId, m);
    ReachTrans(edges, repositoryId, middle, superDirectoryId, n, m);
    FoundIffPath(repositories, directories, edges, repositoryId, superDirectoryId);
  }

  /** Without a path the result is empty. */
  lemma NoPathNotFound(
    repositories: set<string>, directories: set<string>, edges: set<BelongsTo>,
    repositoryId: string, superDirectoryId: string)
    requires !Reachable(edges, repositoryId, superDirectoryId)
    ensures FindByIdAndSuperDirectoryId(repositories, directories, edges, repositoryId, superDirectoryId) == None
  {
    FoundIffPath(repositories, directories, edges, repositoryId, superDirectoryId);
  }
}
