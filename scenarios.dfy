/**
 * Commit sequences of the node store's behavioural tests, run on a fresh
 * store, with the observations those tests make proved as postconditions.
 */
module Scenarios {
  import opened Wrappers
  import opened Paths
  import opened Documents
  import opened Translation
  import opened Resolution
  import opened NodeStores

  /** Paths the scenarios read: `/a`, its children `b`, `c` and `d`, and the grandchild `/a/b/e`. */
  const PathA: Path := ["a"]
  const PathAB: Path := ["a", "b"]
  const PathAC: Path := ["a", "c"]
  const PathAD: Path := ["a", "d"]
  const PathABE: Path := ["a", "b", "e"]

  /** One commit a test asks for: its message, its root path and its instructions. */
  datatype Request = Request(message: string, root: Path, instructions: seq<Instruction>)

  /** The record a successful commit of the request writes. */
  function Record(q: Request): CommitRecord
  {
    CommitRecord(q.message, q.root, q.instructions, AffectedPaths(q.root, q.instructions))
  }

  /** The documents after the requests are committed in order on a fresh store, the `k`-th at revision `k`. */
  function ReplayDocs(qs: seq<Request>): Store
  {
    if qs == [] then map[Root := RootDocument]
    else ApplyAll(ReplayDocs(qs[..|qs| - 1]), qs[|qs| - 1].instructions, |qs|)
  }

  /** The commit records after the requests are committed in order on a fresh store. */
  function ReplayHistory(qs: seq<Request>): History
  {
    if qs == [] then map[0 := InitialCommit]
    else ReplayHistory(qs[..|qs| - 1])[|qs| := Record(qs[|qs| - 1])]
  }

  /**
   * A fresh store on which each request is committed in turn, as the
   * tests do: every commit succeeds, takes the next revision and becomes
   * head.
   */
  method Replay(qs: seq<Request>) returns (store: NodeStore, revs: seq<nat>)
    ensures fresh(store) && store.Valid()
    ensures store.docs == ReplayDocs(qs) && store.history == ReplayHistory(qs)
    ensures store.head == |qs| && store.next == |qs| + 1
    ensures |revs| == |qs| && forall i :: 0 <= i < |qs| ==> revs[i] == i + 1
  {
    store := new NodeStore();
    revs := [];
    for k := 0 to |qs|
      invariant store.Valid() && store.head == k && store.next == k + 1
      invariant store.docs == ReplayDocs(qs[..k]) && store.history == ReplayHistory(qs[..k])
      invariant |revs| == k && forall i :: 0 <= i < k ==> revs[i] == i + 1
    {
      var result := store.Execute(qs[k].message, qs[k].root, qs[k].instructions, None);
      assert qs[..k + 1][..k] == qs[..k];
      revs := revs + [result.value];
    }
    assert qs[..|qs|] == qs;
  }

  /** Replaying requests gives one record per request, at the request's revision, beside the initial one. */
  lemma {:induction false} ReplayHistorySpec(qs: seq<Request>, k: nat)
    ensures k in ReplayHistory(qs) <==> k <= |qs|
    ensures 1 <= k <= |qs| ==> ReplayHistory(qs)[k] == Record(qs[k - 1])
    ensures k == 0 ==> ReplayHistory(qs)[k] == InitialCommit
  {
    if qs != [] {
      var init := qs[..|qs| - 1];
      ReplayHistorySpec(init, k);
      if 1 <= k < |qs| {
        assert init[k - 1] == qs[k - 1];
      }
    }
  }

  /** One request replayed: revisions 0 and 1 hold the initial record and the request's record. */
  lemma OneRecord(qs: seq<Request>, history: History)
    requires |qs| == 1 && history == ReplayHistory(qs)
    ensures history.Keys == {0, 1} && history[0].affectedPaths == {Root} && history[1] == Record(qs[0])
  {
    ReplayHistorySpec(qs, 0);
    ReplayHistorySpec(qs, 1);
    forall k ensures k in history.Keys <==> k in {0, 1} { ReplayHistorySpec(qs, k); }
  }

  /** Two requests replayed: revisions 0 to 2 hold the initial record and one record per request. */
  lemma TwoRecords(qs: seq<Request>, history: History)
    requires |qs| == 2 && history == ReplayHistory(qs)
    ensures history.Keys == {0, 1, 2} && history[0].affectedPaths == {Root}
    ensures history[1] == Record(qs[0]) && history[2] == Record(qs[1])
  {
    ReplayHistorySpec(qs, 0);
    ReplayHistorySpec(qs, 1);
    ReplayHistorySpec(qs, 2);
    forall k ensures k in history.Keys <==> k in {0, 1, 2} { ReplayHistorySpec(qs, k); }
  }

  /** Three requests replayed: revisions 0 to 3 hold the initial record and one record per request. */
  lemma ThreeRecords(qs: seq<Request>, history: History)
    requires |qs| == 3 && history == ReplayHistory(qs)
    ensures history.Keys == {0, 1, 2, 3} && history[0].affectedPaths == {Root}
    ensures history[1] == Record(qs[0]) && history[2] == Record(qs[1]) && history[3] == Record(qs[2])
  {
    ReplayHistorySpec(qs, 0);
    ReplayHistorySpec(qs, 1);
    ReplayHistorySpec(qs, 2);
    ReplayHistorySpec(qs, 3);
    forall k ensures k in history.Keys <==> k in {0, 1, 2, 3} { ReplayHistorySpec(qs, k); }
  }

  /** One request: the documents and records after it. */
  lemma ReplayOne(a: Request)
    ensures ReplayDocs([a]) == ApplyAll(map[Root := RootDocument], a.instructions, 1)
    ensures ReplayHistory([a]) == map[0 := InitialCommit, 1 := Record(a)]
  {
    assert [a][..0] == [];
  }

  /** Two requests: the documents and records after them. */
  lemma ReplayTwo(a: Request, b: Request)
    ensures ReplayDocs([a, b]) == ApplyAll(ApplyAll(map[Root := RootDocument], a.instructions, 1), b.instructions, 2)
    ensures ReplayHistory([a, b]) == map[0 := InitialCommit, 1 := Record(a), 2 := Record(b)]
  {
    ReplayOne(a);
    assert [a, b][..1] == [a];
  }

  /** Three requests: the documents and records after them. */
  lemma ReplayThree(a: Request, b: Request, c: Request)
    ensures ReplayDocs([a, b, c]) == ApplyAll(ApplyAll(ApplyAll(map[Root := RootDocument], a.instructions, 1),
                                                       b.instructions, 2), c.instructions, 3)
    ensures ReplayHistory([a, b, c]) == map[0 := InitialCommit, 1 := Record(a), 2 := Record(b), 3 := Record(c)]
  {
    ReplayTwo(a, b);
    assert [a, b, c][..2] == [a, b];
  }

  /** The revisions committed after the first commit. */
  lemma CommittedAfterOne()
    ensures {0} + {1} == {0, 1}
  {
  }

  /** The revisions committed after the second commit. */
  lemma CommittedAfterTwo()
    ensures {0, 1} + {2} == {0, 1, 2}
  {
  }

  /** The revisions committed after the third commit. */
  lemma CommittedAfterThree()
    ensures {0, 1, 2} + {3} == {0, 1, 2, 3}
  {
  }


  /** One AddNode per name, all under `parent`. */
  function AddChildren(parent: Path, names: seq<Name>): seq<Instruction>
  {
    seq(|names|, i requires 0 <= i < |names| => AddNode(parent, names[i]))
  }

  /** A commit of AddNodes creates exactly the named children. */
  lemma AddedChildren(parent: Path, names: seq<Name>, name: Name)
    ensures LastExistenceWrite(AddChildren(parent, names), parent + [name])
              == if name in names then Some(true) else None
  {
    var xs := AddChildren(parent, names);
    if name in names {
      var i :| 0 <= i < |names| && names[i] == name;
      assert WritesExistence(xs[i], parent + [name]);
    } else {
      forall i | 0 <= i < |xs|
        ensures !WritesExistence(xs[i], parent + [name])
      {
        assert (parent + [names[i]])[|parent|] == names[i];
      }
    }
  }

  /** In a first commit that removes nothing, every node it creates is alive from revision 1 on. */
  lemma CreatedByFirstCommit(xs: seq<Instruction>, i: nat, r: nat)
    requires 0 <= i < |xs| && xs[i].AddNode? && 1 <= r
    requires NoRemovals(xs)
    ensures ExistsAt(ApplyAll(map[Root := RootDocument], xs, 1), {0, 1}, Target(xs[i]), r)
  {
    InitialOrdered();
    CommittedAfterOne();
    assert WritesExistence(xs[i], Target(xs[i]));
    ExistenceAfterCommit(map[Root := RootDocument], xs, 1, {0}, Target(xs[i]), r);
  }

  /** No name occurs twice. */
  predicate DistinctNames(names: seq<Name>)
  {
    forall i, j :: 0 <= i < j < |names| ==> names[i] != names[j]
  }

  /** Distinct names make a set of as many elements. */
  lemma {:induction false} DistinctCount(names: seq<Name>)
    requires DistinctNames(names)
    ensures |set n | n in names| == |names|
  {
    if names != [] {
      var init := names[..|names| - 1];
      DistinctCount(init);
      assert (set n | n in names) == (set n | n in init) + {names[|names| - 1]};
    }
  }

  /** The initial repository's root has no children. */
  lemma InitialChildren(r: nat)
    ensures ChildNames(map[Root := RootDocument], {0}, Root, r) == {}
  {
    var docs := map[Root := RootDocument];
    forall name: Name
      ensures name !in ChildNames(docs, {0}, Root, r)
    {
      ChildNamesSpec(docs, {0}, Root, r, name);
    }
  }

  /** A first commit of AddNodes under the root gives the root exactly those children. */
  lemma FirstCommitChildren(names: seq<Name>, r: nat)
    requires 1 <= r
    ensures ChildNames(ApplyAll(map[Root := RootDocument], AddChildren(Root, names), 1), {0, 1}, Root, r)
              == set n | n in names
  {
    var docs := map[Root := RootDocument];
    InitialOrdered();
    CommittedAfterOne();
    ChildrenAfterCommit(docs, AddChildren(Root, names), 1, {0}, Root, r);
    InitialChildren(r);
    forall name: Name
      ensures name in ChildNames(ApplyAll(docs, AddChildren(Root, names), 1), {0, 1}, Root, r) <==> name in names
    {
      AddedChildren(Root, names, name);
    }
  }

  /** Adding `a`, `b` and `c` under the root gives it three children at revision 1. */
  lemma ThreeChildren()
    ensures |ChildNames(ApplyAll(map[Root := RootDocument], AddChildren(Root, ["a", "b", "c"]), 1), {0, 1}, Root, 1)| == 3
  {
    var names: seq<Name> := ["a", "b", "c"];
    FirstCommitChildren(names, 1);
    assert "a"[0] != "b"[0] && "a"[0] != "c"[0] && "b"[0] != "c"[0];
    DistinctCount(names);
  }

  /** One commit adding `a`, `b` and `c` under the root. */
  function SiblingsRequests(): seq<Request>
  {
    [Request("This is a simple commit", Root, AddChildren(Root, ["a", "b", "c"]))]
  }

  /** After that commit the root read at revision 1 has three children. */
  lemma SiblingsScenario(docs: Store, history: History)
    requires docs == ReplayDocs(SiblingsRequests()) && history == ReplayHistory(SiblingsRequests())
    requires ExistenceLog(docs, Root) == [Entry(0, true)]
    ensures ResolveIn(docs, history, Root, 1).Some? && ResolveIn(docs, history, Root, 1).value.ChildCount() == 3
  {
    var qs := SiblingsRequests();
    OneRecord(qs, history);
    assert docs == ApplyAll(map[Root := RootDocument], AddChildren(Root, ["a", "b", "c"]), 1) by {
      ReplayOne(qs[0]);
      assert qs == [qs[0]];
    }
    RootAlwaysExists(docs, history, 1);
    ThreeChildren();
  }

  /**
   * Three nodes added under the root in one commit: the commit takes
   * revision 1, and the root read at that revision has three children.
   */
  method ExistingParentContainsChildren() returns (rev: nat, childCount: nat)
    ensures rev == 1 && childCount == 3
  {
    var store, revs := Replay(SiblingsRequests());
    rev := revs[0];
    SiblingsScenario(store.docs, store.history);
    childCount := store.Resolve(Root, rev).value.ChildCount();
  }


  /** The documents after three commits that each add one child of the root. */
  function ThreeCommitsDocs(n1: Name, n2: Name, n3: Name): Store
  {
    ApplyAll(ApplyAll(ApplyAll(map[Root := RootDocument], [AddNode(Root, n1)], 1), [AddNode(Root, n2)], 2),
             [AddNode(Root, n3)], 3)
  }

  /** A commit adding one child of the root adds that name to the root's children, and only it. */
  lemma OneChildCommit(docs: Store, committed: set<nat>, rev: nat, child: Name, name: Name, r: nat)
    requires WellFormed(docs) && Ordered(docs, rev) && rev !in committed && rev <= r
    ensures (name in ChildNames(ApplyAll(docs, [AddNode(Root, child)], rev), committed + {rev}, Root, r)
             <==> name == child || name in ChildNames(docs, committed, Root, r))
  {
    assert AddChildren(Root, [child]) == [AddNode(Root, child)];
    AddedChildren(Root, [child], name);
    ChildrenAfterCommit(docs, [AddNode(Root, child)], rev, committed, Root, r);
  }

  /** After those commits, the root read at revision 3 has exactly the children `1`, `2` and `3`. */
  lemma ThreeCommitsChildSet()
    ensures ChildNames(ThreeCommitsDocs("1", "2", "3"), {0, 1, 2, 3}, Root, 3) == {"1", "2", "3"}
  {
    forall name: Name
      ensures name in ChildNames(ThreeCommitsDocs("1", "2", "3"), {0, 1, 2, 3}, Root, 3) <==> name in {"1", "2", "3"}
    {
      ThreeCommitsChildren("1", "2", "3", name);
    }
  }

  /** A name is a child of the root at revision 3 after those commits iff one of them added it. */
  lemma ThreeCommitsChildren(n1: Name, n2: Name, n3: Name, name: Name)
    ensures name in ChildNames(ThreeCommitsDocs(n1, n2, n3), {0, 1, 2, 3}, Root, 3) <==> name == n1 || name == n2 || name == n3
  {
    var docs0 := map[Root := RootDocument];
    var docs1 := ApplyAll(docs0, [AddNode(Root, n1)], 1);
    var docs2 := ApplyAll(docs1, [AddNode(Root, n2)], 2);
    assert name in ChildNames(docs1, {0, 1}, Root, 3) <==> name == n1 by {
      InitialOrdered();
      InitialChildren(3);
      OneChildCommit(docs0, {0}, 1, n1, name, 3);
      CommittedAfterOne();
    }
    assert name in ChildNames(docs2, {0, 1, 2}, Root, 3) <==> name == n1 || name == n2 by {
      InitialOrdered();
      NewDocumentsValid(docs0, [AddNode(Root, n1)], 1);
      OneChildCommit(docs1, {0, 1}, 2, n2, name, 3);
      CommittedAfterTwo();
    }
    assert WellFormed(docs2) && Ordered(docs2, 3) by {
      InitialOrdered();
      NewDocumentsValid(docs0, [AddNode(Root, n1)], 1);
      NewDocumentsValid(docs1, [AddNode(Root, n2)], 2);
    }
    OneChildCommit(docs2, {0, 1, 2}, 3, n3, name, 3);
    CommittedAfterThree();
  }


  /** A commit under `/` adding one child affects the root and that child. */
  lemma OneChildAffected(name: Name)
    ensures AffectedPaths(Root, [AddNode(Root, name)]) == {[name], Root}
  {
    assert [AddNode(Root, name)][..0] == [];
    assert [name][..0] == Root;
    assert UpTo(Root, [name]) == {[name], Root};
  }

  /** Each child of the three commits is alive at revision 3. */
  lemma ThreeCommitsChildExists(name: Name)
    requires name == "1" || name == "2" || name == "3"
    ensures ExistsAt(ThreeCommitsDocs("1", "2", "3"), {0, 1, 2, 3}, [name], 3)
  {
    ThreeCommitsChildren("1", "2", "3", name);
    ChildNamesSpec(ThreeCommitsDocs("1", "2", "3"), {0, 1, 2, 3}, Root, 3, name);
    assert Root + [name] == [name];
  }

  /** Read at revision 3, the `k`-th child carries revision `k`, the only commit that affected it. */
  lemma ThreeCommitsRevisions(history: History, k: nat, name: Name)
    requires history.Keys == {0, 1, 2, 3}
    requires history[1].affectedPaths == {["1"], Root} && history[2].affectedPaths == {["2"], Root}
    requires history[3].affectedPaths == {["3"], Root}
    requires 1 <= k <= 3 && name == ["1", "2", "3"][k - 1]
    ensures LastAffecting(history, [name], 3) == Some(k)
  {
    assert "1"[0] != "2"[0] && "1"[0] != "3"[0] && "2"[0] != "3"[0];
    assert [name] in history[k].affectedPaths;
    assert forall c :: k < c <= 3 ==> [name] !in history[c].affectedPaths;
  }

  /** The three commits under `/`, the `k`-th adding the child named `k`. */
  function ChildRequests(): seq<Request>
  {
    [Request("This is the 1st commit", Root, [AddNode(Root, "1")]),
     Request("This is the 2nd commit", Root, [AddNode(Root, "2")]),
     Request("This is the 3rd commit", Root, [AddNode(Root, "3")])]
  }

  /** Those commits take revisions 1 to 3, each affecting the root and the child it adds. */
  lemma ChildRecords(history: History)
    requires history == ReplayHistory(ChildRequests())
    ensures history.Keys == {0, 1, 2, 3}
    ensures history[1].affectedPaths == {["1"], Root} && history[2].affectedPaths == {["2"], Root}
    ensures history[3].affectedPaths == {["3"], Root}
  {
    ThreeRecords(ChildRequests(), history);
    OneChildAffected("1");
    OneChildAffected("2");
    OneChildAffected("3");
  }

  /** Replaying those commits gives the documents of the three single-child commits. */
  lemma ChildDocs()
    ensures ReplayDocs(ChildRequests()) == ThreeCommitsDocs("1", "2", "3")
  {
    var qs := ChildRequests();
    ReplayThree(qs[0], qs[1], qs[2]);
    assert qs == [qs[0], qs[1], qs[2]];
  }

  /**
   * Read at revision 3 after those commits, the root holds the children
   * `1`, `2` and `3`, and the `k`-th child exists and carries revision `k`.
   */
  lemma ChildReads(docs: Store, history: History)
    requires docs == ThreeCommitsDocs("1", "2", "3") && history.Keys == {0, 1, 2, 3}
    requires history[1].affectedPaths == {["1"], Root} && history[2].affectedPaths == {["2"], Root}
    requires history[3].affectedPaths == {["3"], Root}
    ensures ChildNames(docs, history.Keys, Root, 3) == {"1", "2", "3"}
    ensures ExistsAt(docs, history.Keys, ["1"], 3) && LastAffecting(history, ["1"], 3) == Some(1)
    ensures ExistsAt(docs, history.Keys, ["2"], 3) && LastAffecting(history, ["2"], 3) == Some(2)
    ensures ExistsAt(docs, history.Keys, ["3"], 3) && LastAffecting(history, ["3"], 3) == Some(3)
  {
    ThreeCommitsChildSet();
    ThreeCommitsRevisions(history, 1, "1");
    ThreeCommitsRevisions(history, 2, "2");
    ThreeCommitsRevisions(history, 3, "3");
    ThreeCommitsChildExists("1");
    ThreeCommitsChildExists("2");
    ThreeCommitsChildExists("3");
  }

  /**
   * After those commits, the root read at revision 3 carries revision 3
   * and the children `1`, `2` and `3`, and the `k`-th child carries
   * revision `k`.
   */
  lemma ChildScenarioReads(docs: Store, history: History)
    requires docs == ReplayDocs(ChildRequests()) && history == ReplayHistory(ChildRequests())
    requires ExistenceLog(docs, Root) == [Entry(0, true)]
    ensures ResolveIn(docs, history, Root, 3).Some? && ResolveIn(docs, history, Root, 3).value.revision == Some(3)
    ensures ResolveIn(docs, history, Root, 3).value.children == {"1", "2", "3"}
    ensures ResolveIn(docs, history, ["1"], 3).Some? && ResolveIn(docs, history, ["1"], 3).value.revision == Some(1)
    ensures ResolveIn(docs, history, ["2"], 3).Some? && ResolveIn(docs, history, ["2"], 3).value.revision == Some(2)
    ensures ResolveIn(docs, history, ["3"], 3).Some? && ResolveIn(docs, history, ["3"], 3).value.revision == Some(3)
  {
    ChildDocs();
    ChildRecords(history);
    ChildReads(docs, history);
    RootAlwaysExists(docs, history, 3);
    assert Root in history[3].affectedPaths;
  }

  /**
   * Three commits under `/`, each adding one child of the root: they take
   * revisions 1, 2 and 3; the root read at revision 3 carries revision 3
   * and the children `1`, `2` and `3`, and each child carries the revision
   * of the commit that created it.
   */
  method AddNewNodesToSameParent() returns (revs: seq<nat>, children: set<Name>, rootRevision: Option<nat>,
                                            childRevisions: seq<Option<nat>>)
    ensures revs == [1, 2, 3] && children == {"1", "2", "3"} && rootRevision == Some(3)
    ensures childRevisions == [Some(1), Some(2), Some(3)]
  {
    var store;
    store, revs := Replay(ChildRequests());
    FirstRevisions(revs);
    ChildScenarioReads(store.docs, store.history);
    var root, first, second, third := store.Resolve(Root, 3).value, store.Resolve(["1"], 3).value,
                                      store.Resolve(["2"], 3).value, store.Resolve(["3"], 3).value;
    children, rootRevision := root.children, root.revision;
    childRevisions := [first.revision, second.revision, third.revision];
  }

  /**
   * The walks from the scenario's nodes up to the commit root: under `/`
   * they end at the root, under `/a` they end at `/a`.
   */
  lemma TreeWalks()
    ensures UpTo(Root, PathA) == {PathA, Root}
    ensures UpTo(Root, PathAB) == {PathAB, PathA, Root} && UpTo(Root, PathAC) == {PathAC, PathA, Root}
    ensures UpTo(PathA, PathA) == {PathA}
    ensures UpTo(PathA, PathAB) == {PathAB, PathA} && UpTo(PathA, PathAD) == {PathAD, PathA}
    ensures UpTo(PathA, PathABE) == {PathABE, PathAB, PathA}
  {
    assert Root + ["a"] == PathA && PathA + ["b"] == PathAB && PathA + ["c"] == PathAC;
    assert PathA + ["d"] == PathAD && PathAB + ["e"] == PathABE;
    assert IsPrefix(Root, PathA) && IsPrefix(PathA, PathA) && IsPrefix(PathA, PathAB);
    UpToChild(Root, Root, "a");
    UpToChild(Root, PathA, "b");
    UpToChild(Root, PathA, "c");
    UpToChild(PathA, PathA, "b");
    UpToChild(PathA, PathA, "d");
    UpToChild(PathA, PathAB, "e");
  }

  /** The commit that adds `/a` with the children `b` and `c`. */
  function TreeCommit(): seq<Instruction>
  {
    [AddNode(Root, "a"), AddNode(["a"], "b"), AddNode(["a"], "c")]
  }

  /** Each new node and all its ancestors up to the root are affected. */
  lemma TreeAffected()
    ensures AffectedPaths(Root, TreeCommit()) == {Root, PathA, PathAB, PathAC}
  {
    var x0, x1, x2 := AddNode(Root, "a"), AddNode(PathA, "b"), AddNode(PathA, "c");
    assert AffectedPaths(Root, TreeCommit()) ==
      AffectedPaths(Root, [x0]) + AffectedPaths(Root, [x1]) + AffectedPaths(Root, [x2]) by {
      assert TreeCommit() == [x0] + [x1] + [x2];
      AffectedPathsAppend(Root, [x0] + [x1], [x2]);
      AffectedPathsAppend(Root, [x0], [x1]);
    }
    assert AffectedPaths(Root, [x0]) == {PathA, Root} by {
      AffectedPathsSingle(Root, x0);
      assert Touched(x0) == PathA;
      TreeWalks();
    }
    assert AffectedPaths(Root, [x1]) == {PathAB, PathA, Root} by {
      AffectedPathsSingle(Root, x1);
      assert Touched(x1) == PathAB;
      TreeWalks();
    }
    assert AffectedPaths(Root, [x2]) == {PathAC, PathA, Root} by {
      AffectedPathsSingle(Root, x2);
      assert Touched(x2) == PathAC;
      TreeWalks();
    }
    BranchUnion(Root, PathA, PathAB, PathAC);
  }

  /** The paths walked up from two children of `a` and from `a` itself, below `r`. */
  lemma BranchUnion<T>(r: T, a: T, b: T, c: T)
    ensures {a, r} + {b, a, r} + {c, a, r} == {r, a, b, c}
  {
  }


  /** The tree commit creates `/a` and no other child of the root. */
  lemma TreeRootChild(name: Name)
    ensures LastExistenceWrite(TreeCommit(), [name]) == if name == "a" then Some(true) else None
  {
    var x0, x1, x2 := AddNode(Root, "a"), AddNode(PathA, "b"), AddNode(PathA, "c");
    assert TreeCommit() == [x0] + [x1] + [x2];
    assert |Target(x1)| == 2 && |Target(x2)| == 2;
    LastExistenceWriteSkips([x0] + [x1], x2, [name]);
    LastExistenceWriteSkips([x0], x1, [name]);
    LastExistenceWriteSingle(x0, [name]);
    assert WritesExistence(x0, [name]) <==> name == "a" by {
      assert [name][0] == name;
    }
  }



  /** After the tree commit, `/a/b` exists at revision 1. */
  lemma TreeChildExists()
    ensures ExistsAt(ApplyAll(map[Root := RootDocument], TreeCommit(), 1), {0, 1}, ["a", "b"], 1)
  {
    var initial := map[Root := RootDocument];
    InitialOrdered();
    CommittedAfterOne();
    ExistenceAfterCommit(initial, TreeCommit(), 1, {0}, ["a", "b"], 1);
    assert WritesExistence(TreeCommit()[1], ["a", "b"]);
  }

  /** One commit adding `/a` with the children `b` and `c`. */
  function TreeRequests(): seq<Request>
  {
    [Request("This is a simple commit", Root, TreeCommit())]
  }

  /** After that commit its record lists the new nodes and the root as affected, and `/a/b` exists at revision 1. */
  lemma TreeScenario(docs: Store, history: History)
    requires docs == ReplayDocs(TreeRequests()) && history == ReplayHistory(TreeRequests())
    ensures 1 in history && history[1].affectedPaths == {Root, PathA, PathAB, PathAC}
    ensures ResolveIn(docs, history, PathAB, 1).Some?
  {
    var qs := TreeRequests();
    OneRecord(qs, history);
    assert docs == ApplyAll(map[Root := RootDocument], TreeCommit(), 1) by {
      ReplayOne(qs[0]);
      assert qs == [qs[0]];
    }
    TreeAffected();
    TreeChildExists();
  }

  /**
   * Adding `/a`, `/a/b` and `/a/c` in one commit: it becomes revision 1
   * and the head, the counter moves to 2, `/a/b` exists at revision 1,
   * and the commit reports the new nodes and their ancestors as affected.
   */
  method CommitAddNodes() returns (rev: nat, affected: set<Path>, head: nat, next: nat, childExists: bool)
    ensures rev == 1 && head == 1 && next == 2 && childExists
    ensures affected == {Root, ["a"], ["a", "b"], ["a", "c"]}
  {
    var store, revs := Replay(TreeRequests());
    rev := revs[0];
    TreeScenario(store.docs, store.history);
    affected := store.AffectedPathsOf(rev).value;
    head := store.HeadRevision();
    next := store.NextRevision();
    childExists := store.Resolve(PathAB, rev).Some?;
  }


  /** After the tree commit, `a` is the root's only child. */
  lemma TreeChildren(name: Name, r: nat)
    requires 1 <= r
    ensures name in ChildNames(ApplyAll(map[Root := RootDocument], TreeCommit(), 1), {0, 1}, Root, r) <==> name == "a"
  {
    InitialOrdered();
    TreeRootChild(name);
    ChildrenAfterCommit(map[Root := RootDocument], TreeCommit(), 1, {0}, Root, r);
    InitialChildren(r);
    CommittedAfterOne();
  }

  /** After the tree commit and the removal of `/a`, the root has no children at revision 2. */
  lemma RemovalChildren(name: Name)
    ensures name !in ChildNames(ApplyAll(ApplyAll(map[Root := RootDocument], TreeCommit(), 1), [RemoveNode(Root, "a")], 2),
                                {0, 1, 2}, Root, 2)
  {
    var docs1 := ApplyAll(map[Root := RootDocument], TreeCommit(), 1);
    assert WellFormed(docs1) && Ordered(docs1, 2) by {
      InitialOrdered();
      NewDocumentsValid(map[Root := RootDocument], TreeCommit(), 1);
    }
    assert name in ChildNames(docs1, {0, 1}, Root, 2) <==> name == "a" by {
      TreeChildren(name, 2);
    }
    OneRemovalCommit(docs1, {0, 1}, 2, "a", name, 2);
    CommittedAfterTwo();
  }

  /** A commit removing the only child of the root leaves the root without children. */
  lemma OneRemovalCommit(docs: Store, committed: set<nat>, rev: nat, child: Name, name: Name, r: nat)
    requires WellFormed(docs) && Ordered(docs, rev) && rev !in committed && rev <= r
    requires name in ChildNames(docs, committed, Root, r) <==> name == child
    ensures name !in ChildNames(ApplyAll(docs, [RemoveNode(Root, child)], rev), committed + {rev}, Root, r)
  {
    var removal := [RemoveNode(Root, child)];
    assert [name][0] == name;
    assert WritesExistence(removal[0], [name]) <==> name == child;
    ChildrenAfterCommit(docs, removal, rev, committed, Root, r);
  }


  /** The removal reports only the root, and leaves the root without children at revision 2. */
  lemma RemovalRead(docs: Store, history: History)
    requires docs == ApplyAll(ApplyAll(map[Root := RootDocument], TreeCommit(), 1), [RemoveNode(Root, "a")], 2)
    requires history.Keys == {0, 1, 2}
    ensures ChildNames(docs, history.Keys, Root, 2) == {}
    ensures AffectedPaths(Root, [RemoveNode(Root, "a")]) == {Root}
  {
    forall name: Name
      ensures name !in ChildNames(docs, history.Keys, Root, 2)
    {
      RemovalChildren(name);
    }
    assert UpTo(Root, Touched(RemoveNode(Root, "a"))) == {Root};
  }

  /** The commit adding `/a` with two children, then one removing `/a`. */
  function RemovalRequests(): seq<Request>
  {
    [Request("This is a simple commit", Root, TreeCommit()), Request("This is a simple commit", Root, [RemoveNode(Root, "a")])]
  }

  /** After those commits the root read at revision 2 has no children, and the removal affected only the root. */
  lemma RemovalScenario(docs: Store, history: History)
    requires docs == ReplayDocs(RemovalRequests()) && history == ReplayHistory(RemovalRequests())
    requires ExistenceLog(docs, Root) == [Entry(0, true)]
    ensures ResolveIn(docs, history, Root, 2).Some? && ResolveIn(docs, history, Root, 2).value.children == {}
    ensures 2 in history && history[2].affectedPaths == {Root}
  {
    var qs := RemovalRequests();
    TwoRecords(qs, history);
    assert docs == ApplyAll(ApplyAll(map[Root := RootDocument], TreeCommit(), 1), [RemoveNode(Root, "a")], 2) by {
      ReplayTwo(qs[0], qs[1]);
      assert qs == [qs[0], qs[1]];
    }
    RemovalRead(docs, history);
    RootAlwaysExists(docs, history, 2);
  }

  /**
   * Removing `/a` after creating it with two children: the root read at
   * the removal's revision has no children, and the removal reports only
   * the root as affected.
   */
  method RemoveNodeScenario() returns (rev: nat, children: set<Name>, affected: set<Path>)
    ensures rev == 2 && children == {} && affected == {Root}
  {
    var store, revs := Replay(RemovalRequests());
    rev := revs[1];
    RemovalScenario(store.docs, store.history);
    children := store.Resolve(Root, rev).value.children;
    affected := store.AffectedPathsOf(rev).value;
  }


  /** A commit of AddNodes under its own root affects that root and the new children. */
  lemma {:induction false} AddChildrenAffected(root: Path, names: seq<Name>, q: Path)
    requires names != []
    ensures q in AffectedPaths(root, AddChildren(root, names)) <==> q == root || ChildIn(root, names, q)
    decreases |names|
  {
    var init, last := names[..|names| - 1], names[|names| - 1];
    var xs := AddChildren(root, names);
    assert AffectedPaths(root, xs) == AffectedPaths(root, AddChildren(root, init)) + {root + [last], root} by {
      assert xs[..|xs| - 1] == AddChildren(root, init);
      UpToChild(root, root, last);
    }
    ChildInLast(root, init, last, q);
    assert names == init + [last];
    if init == [] {
      assert AddChildren(root, init) == [];
    } else {
      AddChildrenAffected(root, init, q);
    }
  }

  /** `q` is the path of a child of `root` named in `names`. */
  predicate ChildIn(root: Path, names: seq<Name>, q: Path)
  {
    |q| == |root| + 1 && q[..|root|] == root && q[|root|] in names
  }

  /** A child named in `init + [last]` is one named in `init` or the child `last`. */
  lemma ChildInLast(root: Path, init: seq<Name>, last: Name, q: Path)
    ensures ChildIn(root, init + [last], q) <==> ChildIn(root, init, q) || q == root + [last]
  {
    if |q| == |root| + 1 && q[..|root|] == root {
      assert q == q[..|root|] + [q[|root|]];
    }
  }




  /** Adding `a`, `b` and `c` under `/` affects the root and the three new nodes. */
  lemma RootCommitAffected()
    ensures AffectedPaths(Root, AddChildren(Root, ["a", "b", "c"])) == {Root, ["a"], ["b"], ["c"]}
  {
    var x0, x1, x2 := AddNode(Root, "a"), AddNode(Root, "b"), AddNode(Root, "c");
    assert AffectedPaths(Root, AddChildren(Root, ["a", "b", "c"]))
           == AffectedPaths(Root, [x0]) + AffectedPaths(Root, [x1]) + AffectedPaths(Root, [x2]) by {
      assert AddChildren(Root, ["a", "b", "c"]) == [x0] + [x1] + [x2];
      AffectedPathsAppend(Root, [x0] + [x1], [x2]);
      AffectedPathsAppend(Root, [x0], [x1]);
    }
    AffectedPathsSingle(Root, x0);
    AffectedPathsSingle(Root, x1);
    AffectedPathsSingle(Root, x2);
    UpToChild(Root, Root, "a");
    UpToChild(Root, Root, "b");
    UpToChild(Root, Root, "c");
    assert Root + ["a"] == ["a"] && Root + ["b"] == ["b"] && Root + ["c"] == ["c"];
  }


  /** Adding `d` and `e` under `/a`, committed at `/a`, affects `/a` and the two new nodes only. */
  lemma SubtreeCommitAffected()
    ensures AffectedPaths(PathA, AddChildren(PathA, ["d", "e"])) == {PathA, PathA + ["d"], PathA + ["e"]}
  {
    var x0, x1 := AddNode(PathA, "d"), AddNode(PathA, "e");
    assert AffectedPaths(PathA, AddChildren(PathA, ["d", "e"]))
           == AffectedPaths(PathA, [x0]) + AffectedPaths(PathA, [x1]) by {
      assert AddChildren(PathA, ["d", "e"]) == [x0] + [x1];
      AffectedPathsAppend(PathA, [x0], [x1]);
    }
    AffectedPathsSingle(PathA, x0);
    AffectedPathsSingle(PathA, x1);
    UpToChild(PathA, PathA, "d");
    UpToChild(PathA, PathA, "e");
  }


  /** With the second commit rooted below `/`, the root's newest affecting commit at revision 2 is still the first. */
  lemma SubtreeCommitSkipsRoot(history: History)
    requires 1 in history && 2 in history
    requires history[1].affectedPaths == {Root, ["a"], ["b"], ["c"]}
    requires history[2].affectedPaths == {["a"], ["a", "d"], ["a", "e"]}
    ensures LastAffecting(history, Root, 2) == Some(1)
  {
    assert Root !in history[2].affectedPaths;
  }

  /** A commit under `/` adding `a`, `b` and `c`, then one under `/a` adding `d` and `e`. */
  function SubtreeRequests(): seq<Request>
  {
    [Request("This is a simple commit", Root, AddChildren(Root, ["a", "b", "c"])),
     Request("This is a simple commit", PathA, AddChildren(PathA, ["d", "e"]))]
  }

  /**
   * After those commits the first records the root and its three children
   * as affected, the second `/a` and its two new children, and the root
   * read at revision 2 still carries revision 1.
   */
  lemma SubtreeScenario(docs: Store, history: History)
    requires history == ReplayHistory(SubtreeRequests()) && ExistenceLog(docs, Root) == [Entry(0, true)]
    ensures 1 in history && history[1].affectedPaths == {Root, ["a"], ["b"], ["c"]}
    ensures 2 in history && history[2].affectedPaths == {["a"], ["a", "d"], ["a", "e"]}
    ensures ReadsRevision(docs, history, Root, 2, 1)
  {
    TwoRecords(SubtreeRequests(), history);
    RootCommitAffected();
    SubtreeCommitAffected();
    assert PathA + ["d"] == ["a", "d"] && PathA + ["e"] == ["a", "e"];
    RootAlwaysExists(docs, history, 2);
    SubtreeCommitSkipsRoot(history);
  }

  /**
   * A commit under `/` adding `a`, `b` and `c`, then a commit under `/a`
   * adding `d` and `e`: the first reports the root and its three children
   * as affected, the second `/a` and its two new children, so the root
   * read at the second revision still carries the first revision.
   */
  method NoOtherNodesTouched() returns (first: set<Path>, second: set<Path>, rootRevision: Option<nat>)
    ensures first == {Root, ["a"], ["b"], ["c"]}
    ensures second == {["a"], ["a", "d"], ["a", "e"]}
    ensures rootRevision == Some(1)
  {
    var store, revs := Replay(SubtreeRequests());
    SubtreeScenario(store.docs, store.history);
    first := store.AffectedPathsOf(1).value;
    second := store.AffectedPathsOf(2).value;
    rootRevision := store.Resolve(Root, 2).value.revision;
  }


  /**
   * The second commit of the simple node scenario, rooted at `/a`: a new
   * property on `/a`, a new child `/a/d` and a new grandchild `/a/b/e`, each
   * new node with one property (values in their JSON text).
   */
  function UpdateAAndAddDAndE(): seq<Instruction>
  {
    [AddProperty(["a"], "double", "0.123"),
     AddNode(["a"], "d"), AddProperty(["a", "d"], "null", "null"),
     AddNode(["a", "b"], "e"), AddProperty(["a", "b", "e"], "array", "[123,null,123.456,\"for:bar\",true]")]
  }

  /** That commit affects `/a`, `/a/b`, `/a/d` and `/a/b/e`: the root above `/a` is not reported. */
  lemma UpdateAAndAddDAndEAffected()
    ensures AffectedPaths(PathA, UpdateAAndAddDAndE()) == {PathA, PathAB, PathAD, PathABE}
  {
    var x := AddProperty(PathA, "double", "0.123");
    var ys := [AddNode(PathA, "d"), AddProperty(PathAD, "null", "null")];
    var zs := [AddNode(PathAB, "e"), AddProperty(PathABE, "array", "[123,null,123.456,\"for:bar\",true]")];
    assert AffectedPaths(PathA, UpdateAAndAddDAndE())
           == AffectedPaths(PathA, [x]) + AffectedPaths(PathA, ys) + AffectedPaths(PathA, zs) by {
      assert UpdateAAndAddDAndE() == [x] + ys + zs;
      AffectedPathsAppend(PathA, [x] + ys, zs);
      AffectedPathsAppend(PathA, [x], ys);
    }
    assert AffectedPaths(PathA, [x]) == {PathA} by {
      AffectedPathsSingle(PathA, x);
      TreeWalks();
    }
    assert AffectedPaths(PathA, ys) == {PathAD, PathA} by {
      NodeWithPropertyAffected(PathA, PathA, "d", PathAD, "null", "null");
      TreeWalks();
    }
    assert AffectedPaths(PathA, zs) == {PathABE, PathAB, PathA} by {
      NodeWithPropertyAffected(PathA, PathAB, "e", PathABE, "array", "[123,null,123.456,\"for:bar\",true]");
      TreeWalks();
    }
    UpdateUnion(PathA, PathAB, PathAD, PathABE);
  }

  /** The paths walked up to `a` from `a` itself, from a new child `d` and from a grandchild `e` under `b`. */
  lemma UpdateUnion<T>(a: T, b: T, d: T, e: T)
    ensures {a} + {d, a} + {e, b, a} == {a, b, d, e}
  {
  }



  /** Properties and nodes of one commit listed in an order where a property precedes its node. */
  function OutOfOrderCommit(): seq<Instruction>
  {
    [AddProperty(["a"], "key1", "value1"), AddNode(Root, "a"), AddNode(["a"], "b"),
     AddProperty(["a", "b"], "key2", "value2"), AddProperty(["a", "c"], "key3", "value3"), AddNode(["a"], "c")]
  }

  /** Only the first instruction of that commit sets a property of `/a`. */
  lemma OutOfOrderProperties()
    ensures CommitProperties(OutOfOrderCommit(), ["a"]) == map["key1" := "value1"]
  {
    var xs := OutOfOrderCommit();
    var m := CommitProperties(xs, ["a"]);
    forall key
      ensures key in m <==> key == "key1"
      ensures key in m ==> m[key] == "value1"
    {
      CommitPropertiesSpec(xs, ["a"], key);
      assert ["a", "b"] != ["a"] && ["a", "c"] != ["a"];
      assert forall i :: 1 <= i < |xs| ==> !WritesProperty(xs[i], ["a"], key);
      assert key == "key1" ==> WritesProperty(xs[0], ["a"], key);
    }
  }

  /** `/a` and `/a/c` are alive at revision 1 although their properties were set before their creation. */
  lemma OutOfOrderExists()
    ensures ExistsAt(ApplyAll(map[Root := RootDocument], OutOfOrderCommit(), 1), {0, 1}, ["a"], 1)
    ensures ExistsAt(ApplyAll(map[Root := RootDocument], OutOfOrderCommit(), 1), {0, 1}, ["a", "c"], 1)
  {
    var xs := OutOfOrderCommit();
    assert NoRemovals(xs);
    assert Target(xs[1]) == ["a"] && Target(xs[5]) == ["a", "c"];
    CreatedByFirstCommit(xs, 1, 1);
    CreatedByFirstCommit(xs, 5, 1);
  }

  /** Only the fourth and fifth instructions of that commit set properties of `/a/b` and `/a/c`. */
  lemma OutOfOrderChildProperties()
    ensures CommitProperties(OutOfOrderCommit(), PathAB) == map["key2" := "value2"]
    ensures CommitProperties(OutOfOrderCommit(), PathAC) == map["key3" := "value3"]
  {
    var xs := OutOfOrderCommit();
    var mb, mc := CommitProperties(xs, PathAB), CommitProperties(xs, PathAC);
    forall key
      ensures key in mb <==> key == "key2"
      ensures key in mb ==> mb[key] == "value2"
    {
      CommitPropertiesSpec(xs, PathAB, key);
      assert forall i :: 0 <= i < |xs| && i != 3 ==> !WritesProperty(xs[i], PathAB, key);
      assert key == "key2" ==> WritesProperty(xs[3], PathAB, key);
    }
    forall key
      ensures key in mc <==> key == "key3"
      ensures key in mc ==> mc[key] == "value3"
    {
      CommitPropertiesSpec(xs, PathAC, key);
      assert forall i :: 0 <= i < |xs| && i != 4 ==> !WritesProperty(xs[i], PathAC, key);
      assert key == "key3" ==> WritesProperty(xs[4], PathAC, key);
    }
  }

  /** Two instructions reporting the same path affect that path and its ancestors up to the root. */
  lemma PairAffected(root: Path, x: Instruction, y: Instruction)
    requires Touched(x) == Touched(y)
    ensures AffectedPaths(root, [x, y]) == UpTo(root, Touched(x))
  {
    assert [x, y][..1] == [x];
    AffectedPathsSingle(root, x);
    assert AffectedPaths(root, [x, y]) == AffectedPaths(root, [x]) + UpTo(root, Touched(y));
  }

  /** The out-of-order commit affects the root and the three nodes it creates, as the in-order one does. */
  lemma OutOfOrderAffected()
    ensures AffectedPaths(Root, OutOfOrderCommit()) == {Root, PathA, PathAB, PathAC}
  {
    var xs := OutOfOrderCommit();
    var ys, zs, ws := xs[..2], xs[2..4], xs[4..];
    assert AffectedPaths(Root, xs) == AffectedPaths(Root, ys) + AffectedPaths(Root, zs) + AffectedPaths(Root, ws) by {
      assert xs == ys + zs + ws;
      AffectedPathsAppend(Root, ys + zs, ws);
      AffectedPathsAppend(Root, ys, zs);
    }
    assert AffectedPaths(Root, ys) == {PathA, Root} by {
      assert ys == [xs[0], xs[1]] && Touched(xs[0]) == PathA;
      PairAffected(Root, xs[0], xs[1]);
      TreeWalks();
    }
    assert AffectedPaths(Root, zs) == {PathAB, PathA, Root} by {
      assert zs == [xs[2], xs[3]] && Touched(xs[2]) == PathAB;
      PairAffected(Root, xs[2], xs[3]);
      TreeWalks();
    }
    assert AffectedPaths(Root, ws) == {PathAC, PathA, Root} by {
      assert ws == [xs[4], xs[5]] && Touched(xs[4]) == PathAC;
      PairAffected(Root, xs[4], xs[5]);
      TreeWalks();
    }
    BranchUnion(Root, PathA, PathAB, PathAC);
  }

  /** At revision 1 `/a`, `/a/b` and `/a/c` hold exactly the properties the commit set on each. */
  lemma OutOfOrderRead()
    ensures PropertiesAt(ApplyAll(map[Root := RootDocument], OutOfOrderCommit(), 1), {0, 1}, PathA, 1)
              == map["key1" := "value1"]
    ensures PropertiesAt(ApplyAll(map[Root := RootDocument], OutOfOrderCommit(), 1), {0, 1}, PathAB, 1)
              == map["key2" := "value2"]
    ensures PropertiesAt(ApplyAll(map[Root := RootDocument], OutOfOrderCommit(), 1), {0, 1}, PathAC, 1)
              == map["key3" := "value3"]
  {
    FirstCommitProperties(OutOfOrderCommit(), PathA, 1);
    FirstCommitProperties(OutOfOrderCommit(), PathAB, 1);
    FirstCommitProperties(OutOfOrderCommit(), PathAC, 1);
    OutOfOrderProperties();
    OutOfOrderChildProperties();
  }

  /** `/a/b` is alive at revision 1, created between the property writes of its parent and its own. */
  lemma OutOfOrderChildExists()
    ensures ExistsAt(ApplyAll(map[Root := RootDocument], OutOfOrderCommit(), 1), {0, 1}, PathAB, 1)
  {
    var xs := OutOfOrderCommit();
    assert NoRemovals(xs);
    assert Target(xs[2]) == PathAB;
    CreatedByFirstCommit(xs, 2, 1);
  }


  /** The out-of-order commit on its own. */
  function OutOfOrderRequests(): seq<Request>
  {
    [Request("This is a simple commit", Root, OutOfOrderCommit())]
  }

  /**
   * After that commit its record lists the root and the three new nodes as
   * affected, and at revision 1 `/a`, `/a/b` and `/a/c` each carry revision
   * 1 and exactly the property set on them.
   */
  lemma OutOfOrderScenario(docs: Store, history: History)
    requires docs == ReplayDocs(OutOfOrderRequests()) && history == ReplayHistory(OutOfOrderRequests())
    ensures 1 in history && history[1].affectedPaths == {Root, PathA, PathAB, PathAC}
    ensures ReadsProperties(docs, history, PathA, 1, map["key1" := "value1"])
    ensures ReadsProperties(docs, history, PathAB, 1, map["key2" := "value2"])
    ensures ReadsProperties(docs, history, PathAC, 1, map["key3" := "value3"])
    ensures ReadsRevision(docs, history, PathA, 1, 1) && ReadsRevision(docs, history, PathAB, 1, 1)
    ensures ReadsRevision(docs, history, PathAC, 1, 1)
  {
    var qs := OutOfOrderRequests();
    OneRecord(qs, history);
    assert docs == ApplyAll(map[Root := RootDocument], OutOfOrderCommit(), 1) by {
      ReplayOne(qs[0]);
      assert qs == [qs[0]];
    }
    OutOfOrderAffected();
    OutOfOrderExists();
    OutOfOrderChildExists();
    OutOfOrderRead();
  }

  /**
   * The out-of-order commit: it becomes revision 1 and the head, the
   * counter moves to 2, the root and the three new nodes are affected,
   * and each new node holds its own property at revision 1.
   */
  method CommitAddNodesAndPropertiesOutOfOrder()
    returns (rev: nat, affected: set<Path>, head: nat, next: nat,
             aProperties: map<string, string>, bProperties: map<string, string>, cProperties: map<string, string>)
    ensures rev == 1 && head == 1 && next == 2
    ensures affected == {Root, ["a"], ["a", "b"], ["a", "c"]}
    ensures aProperties == map["key1" := "value1"]
    ensures bProperties == map["key2" := "value2"] && cProperties == map["key3" := "value3"]
  {
    var store, revs := Replay(OutOfOrderRequests());
    rev := revs[0];
    OutOfOrderScenario(store.docs, store.history);
    affected := store.AffectedPathsOf(rev).value;
    head := store.HeadRevision();
    next := store.NextRevision();
    aProperties := store.Resolve(PathA, rev).value.properties;
    bProperties := store.Resolve(PathAB, rev).value.properties;
    cProperties := store.Resolve(PathAC, rev).value.properties;
  }


  /** A commit that (re)adds `/a` and sets three of its properties. */
  function NodeWithProperties(k1: string, k2: string, k3: string): seq<Instruction>
  {
    [AddNode(Root, "a"), AddProperty(["a"], k1, "value1"), AddProperty(["a"], k2, "value2"),
     AddProperty(["a"], k3, "value3")]
  }

  /** Such a commit sets exactly its three properties of `/a`. */
  lemma NodeWithPropertiesSets(k1: string, k2: string, k3: string)
    requires k1 != k2 && k1 != k3 && k2 != k3
    ensures CommitProperties(NodeWithProperties(k1, k2, k3), ["a"])
              == map[k1 := "value1", k2 := "value2", k3 := "value3"]
  {
    var xs := NodeWithProperties(k1, k2, k3);
    var m := CommitProperties(xs, ["a"]);
    var expected := map[k1 := "value1", k2 := "value2", k3 := "value3"];
    forall key
      ensures key in m <==> key in expected
      ensures key in m ==> m[key] == expected[key]
    {
      CommitPropertiesSpec(xs, ["a"], key);
      assert !WritesProperty(xs[0], ["a"], key);
      assert WritesProperty(xs[1], ["a"], key) <==> key == k1;
      assert WritesProperty(xs[2], ["a"], key) <==> key == k2;
      assert WritesProperty(xs[3], ["a"], key) <==> key == k3;
    }
  }

  /** Two commits at revisions 1 and 2 merge their properties over the initial ones, the later winning. */
  lemma TwoCommitProperties(docs0: Store, xs1: seq<Instruction>, xs2: seq<Instruction>, p: Path, r: nat)
    requires WellFormed(docs0) && Ordered(docs0, 1) && 2 <= r
    ensures PropertiesAt(ApplyAll(ApplyAll(docs0, xs1, 1), xs2, 2), {0, 1, 2}, p, r)
              == PropertiesAt(docs0, {0}, p, r) + CommitProperties(xs1, p) + CommitProperties(xs2, p)
  {
    NewDocumentsValid(docs0, xs1, 1);
    CommittedAfterOne();
    CommittedAfterTwo();
    PropertiesAfterCommit(docs0, xs1, 1, {0}, p, r);
    PropertiesAfterCommit(ApplyAll(docs0, xs1, 1), xs2, 2, {0, 1}, p, r);
  }

  /** A second commit that creates a node leaves it alive. */
  lemma CreatedBySecondCommit(docs1: Store, xs: seq<Instruction>, i: nat, r: nat)
    requires WellFormed(docs1) && Ordered(docs1, 2)
    requires 0 <= i < |xs| && xs[i].AddNode? && 2 <= r
    requires NoRemovals(xs)
    ensures ExistsAt(ApplyAll(docs1, xs, 2), {0, 1, 2}, Target(xs[i]), r)
  {
    CommittedAfterTwo();
    assert WritesExistence(xs[i], Target(xs[i]));
    ExistenceAfterCommit(docs1, xs, 2, {0, 1}, Target(xs[i]), r);
  }

  /** The six property keys of the merge scenario are pairwise different where it matters. */
  lemma MergeKeysDistinct()
    ensures "existed_key1" != "existed_key2" && "existed_key1" != "existed_key3" && "existed_key2" != "existed_key3"
    ensures "key1" != "key2" && "key1" != "key3" && "key2" != "key3"
  {
    assert "existed_key1"[11] != "existed_key2"[11] && "existed_key1"[11] != "existed_key3"[11];
    assert "existed_key2"[11] != "existed_key3"[11];
    assert "key1"[3] != "key2"[3] && "key1"[3] != "key3"[3] && "key2"[3] != "key3"[3];
  }

  /** The first commit's properties merged with the second's give all six. */
  lemma MergedMap()
    ensures map["existed_key1" := "value1", "existed_key2" := "value2", "existed_key3" := "value3"]
              + map["key1" := "value1", "key2" := "value2", "key3" := "value3"]
            == map["existed_key1" := "value1", "existed_key2" := "value2", "existed_key3" := "value3",
                   "key1" := "value1", "key2" := "value2", "key3" := "value3"]
  {
  }

  /** `/a` is alive at revision 2 after both commits. */
  lemma MergeExists(docs1: Store, docs2: Store)
    requires docs1 == ApplyAll(map[Root := RootDocument], NodeWithProperties("existed_key1", "existed_key2", "existed_key3"), 1)
    requires docs2 == ApplyAll(docs1, NodeWithProperties("key1", "key2", "key3"), 2)
    ensures ExistsAt(docs2, {0, 1, 2}, ["a"], 2)
  {
    var xs2 := NodeWithProperties("key1", "key2", "key3");
    InitialOrdered();
    NewDocumentsValid(map[Root := RootDocument], NodeWithProperties("existed_key1", "existed_key2", "existed_key3"), 1);
    assert Target(xs2[0]) == ["a"];
    CreatedBySecondCommit(docs1, xs2, 0, 2);
  }

  /** The two commits of the merge scenario set these properties of `/a`. */
  lemma MergeCommitsSet()
    ensures CommitProperties(NodeWithProperties("existed_key1", "existed_key2", "existed_key3"), ["a"])
              == map["existed_key1" := "value1", "existed_key2" := "value2", "existed_key3" := "value3"]
    ensures CommitProperties(NodeWithProperties("key1", "key2", "key3"), ["a"])
              == map["key1" := "value1", "key2" := "value2", "key3" := "value3"]
  {
    MergeKeysDistinct();
    NodeWithPropertiesSets("existed_key1", "existed_key2", "existed_key3");
    NodeWithPropertiesSets("key1", "key2", "key3");
  }

  lemma EmptyUnion<K, V>(m: map<K, V>)
    ensures map[] + m == m
  {
  }

  /** A path other than the root has no properties in the initial repository. */
  lemma InitialProperties(p: Path, r: nat)
    requires p != Root
    ensures PropertiesAt(map[Root := RootDocument], {0}, p, r) == map[]
  {
    assert PropertyKeys(map[Root := RootDocument], p) == {};
  }

  /** Below the root, two commits' properties at revision 2 are the first's overridden by the second's. */
  lemma MergeProperties(xs1: seq<Instruction>, xs2: seq<Instruction>, p: Path)
    requires p != Root
    ensures PropertiesAt(ApplyAll(ApplyAll(map[Root := RootDocument], xs1, 1), xs2, 2), {0, 1, 2}, p, 2)
              == CommitProperties(xs1, p) + CommitProperties(xs2, p)
  {
    var initial := map[Root := RootDocument];
    var m1, m2 := CommitProperties(xs1, p), CommitProperties(xs2, p);
    calc {
      PropertiesAt(ApplyAll(ApplyAll(initial, xs1, 1), xs2, 2), {0, 1, 2}, p, 2);
    == { InitialOrdered(); TwoCommitProperties(initial, xs1, xs2, p, 2); }
      PropertiesAt(initial, {0}, p, 2) + m1 + m2;
    == { InitialProperties(p, 2); }
      map[] + m1 + m2;
    == { EmptyUnion(m1); }
      m1 + m2;
    }
  }

  /** The merge scenario's commits: `/a` with three `existed_key`s, then `/a` again with three other keys. */
  function SomeExistedRequests(): seq<Request>
  {
    [Request("This is a simple commit", Root, NodeWithProperties("existed_key1", "existed_key2", "existed_key3")),
     Request("This is a simple commit", Root, NodeWithProperties("key1", "key2", "key3"))]
  }

  /** After those commits `/a` read at revision 2 holds all six properties. */
  lemma SomeExistedReads(docs: Store, history: History)
    requires docs == ReplayDocs(SomeExistedRequests()) && history == ReplayHistory(SomeExistedRequests())
    ensures ReadsProperties(docs, history, PathA, 2,
                            map["existed_key1" := "value1", "existed_key2" := "value2", "existed_key3" := "value3",
                                "key1" := "value1", "key2" := "value2", "key3" := "value3"])
  {
    var qs := SomeExistedRequests();
    TwoRecords(qs, history);
    ReplayTwo(qs[0], qs[1]);
    assert qs == [qs[0], qs[1]];
    MergeExists(ApplyAll(map[Root := RootDocument], qs[0].instructions, 1), docs);
    MergeProperties(qs[0].instructions, qs[1].instructions, PathA);
    MergeCommitsSet();
    MergedMap();
  }

  /**
   * Two commits each adding `/a` with three different properties: `/a`
   * read at the second revision has all six, none overwritten.
   */
  method MergePropertiesSomeExisted() returns (rev: nat, properties: map<string, string>)
    ensures rev == 2
    ensures properties == map["existed_key1" := "value1", "existed_key2" := "value2", "existed_key3" := "value3",
                              "key1" := "value1", "key2" := "value2", "key3" := "value3"]
  {
    var store, revs := Replay(SomeExistedRequests());
    rev := revs[1];
    SomeExistedReads(store.docs, store.history);
    properties := store.Resolve(PathA, rev).value.properties;
  }

  /** Below the root, a first commit's properties read at or after it are exactly the ones it sets. */
  lemma FirstCommitProperties(xs: seq<Instruction>, p: Path, r: nat)
    requires p != Root && 1 <= r
    ensures PropertiesAt(ApplyAll(map[Root := RootDocument], xs, 1), {0, 1}, p, r) == CommitProperties(xs, p)
  {
    InitialOrdered();
    CommittedAfterOne();
    PropertiesAfterCommit(map[Root := RootDocument], xs, 1, {0}, p, r);
    InitialProperties(p, r);
    EmptyUnion(CommitProperties(xs, p));
  }

  /** Read at revision 0, after a first commit, the root is still the empty initial root. */
  lemma RootAtZero(xs: seq<Instruction>)
    ensures ChildNames(ApplyAll(map[Root := RootDocument], xs, 1), {0, 1}, Root, 0) == {}
    ensures PropertiesAt(ApplyAll(map[Root := RootDocument], xs, 1), {0, 1}, Root, 0) == map[]
  {
    var initial := map[Root := RootDocument];
    InitialOrdered();
    CommittedAfterOne();
    ChildrenAfterCommit(initial, xs, 1, {0}, Root, 0);
    InitialChildren(0);
    PropertiesUnseen(initial, xs, 1, {0}, {0, 1}, Root, 0);
    assert PropertyKeys(initial, Root) == {};
  }

  /** `/a` is alive at revision 1 after a first commit that adds it with three properties. */
  lemma NodeWithPropertiesExists(k1: string, k2: string, k3: string)
    ensures ExistsAt(ApplyAll(map[Root := RootDocument], NodeWithProperties(k1, k2, k3), 1), {0, 1}, ["a"], 1)
  {
    var xs := NodeWithProperties(k1, k2, k3);
    assert NoRemovals(xs);
    assert Target(xs[0]) == ["a"];
    CreatedByFirstCommit(xs, 0, 1);
  }

  /** One commit adding `/a` with `key1`, `key2` and `key3`. */
  function NoneExistedRequests(): seq<Request>
  {
    [Request("This is a simple commit", Root, NodeWithProperties("key1", "key2", "key3"))]
  }

  /** After that commit the root read at revision 0 is the empty initial root, and `/a` read at 1 has the three properties. */
  lemma NoneExistedScenario(docs: Store, history: History)
    requires docs == ReplayDocs(NoneExistedRequests()) && history == ReplayHistory(NoneExistedRequests())
    requires ExistenceLog(docs, Root) == [Entry(0, true)]
    ensures ResolveIn(docs, history, Root, 0) == Some(NodeState(Some(0), map[], {}))
    ensures ReadsProperties(docs, history, PathA, 1, map["key1" := "value1", "key2" := "value2", "key3" := "value3"])
  {
    var qs := NoneExistedRequests();
    var xs := NodeWithProperties("key1", "key2", "key3");
    OneRecord(qs, history);
    assert docs == ApplyAll(map[Root := RootDocument], xs, 1) by {
      ReplayOne(qs[0]);
      assert qs == [qs[0]];
    }
    RootAlwaysExists(docs, history, 0);
    RootAtZero(xs);
    NodeWithPropertiesExists("key1", "key2", "key3");
    FirstCommitProperties(xs, PathA, 1);
    MergeCommitsSet();
  }

  /**
   * One commit adding `/a` with three properties: the root read at
   * revision 0 is still there, carries revision 0 and is empty, and `/a`
   * read at the commit's revision has exactly the three properties.
   */
  method MergePropertiesNoneExisted() returns (rootAtZero: Option<NodeState>, rev: nat, properties: map<string, string>)
    ensures rootAtZero == Some(NodeState(Some(0), map[], {}))
    ensures rev == 1 && properties == map["key1" := "value1", "key2" := "value2", "key3" := "value3"]
  {
    var store, revs := Replay(NoneExistedRequests());
    rev := revs[0];
    NoneExistedScenario(store.docs, store.history);
    rootAtZero := store.Resolve(Root, 0);
    properties := store.Resolve(PathA, rev).value.properties;
  }


  /**
   * The first commit of the simple node scenario, rooted at `/`: `/a` with
   * the children `b` and `c`, each node with one property (values in their
   * JSON text).
   */
  function CreateCommit(): seq<Instruction>
  {
    [AddNode(Root, "a"), AddProperty(["a"], "int", "1"),
     AddNode(["a"], "b"), AddProperty(["a", "b"], "string", "\"foo\""),
     AddNode(["a"], "c"), AddProperty(["a", "c"], "bool", "true")]
  }

  /** The commit that re-adds `/a`, `/a/b` and `/a/c`, each with one new property. */
  function ReAddCommit(): seq<Instruction>
  {
    [AddNode(Root, "a"), AddProperty(["a"], "key1", "value1"),
     AddNode(["a"], "b"), AddProperty(["a", "b"], "key2", "value2"),
     AddNode(["a"], "c"), AddProperty(["a", "c"], "key3", "value3")]
  }

  /** Adding `/a`, `/a/b` and `/a/c` with their properties affects exactly those nodes and the root. */
  lemma TreeWithPropertiesAffected(xs: seq<Instruction>, k1: string, v1: string, k2: string, v2: string,
                                   k3: string, v3: string)
    requires xs == [AddNode(Root, "a"), AddProperty(["a"], k1, v1), AddNode(["a"], "b"), AddProperty(["a", "b"], k2, v2),
                    AddNode(["a"], "c"), AddProperty(["a", "c"], k3, v3)]
    ensures AffectedPaths(Root, xs) == {Root, PathA, PathAB, PathAC}
  {
    var ys := [AddNode(Root, "a"), AddProperty(PathA, k1, v1)];
    var zs := [AddNode(PathA, "b"), AddProperty(PathAB, k2, v2)];
    var ws := [AddNode(PathA, "c"), AddProperty(PathAC, k3, v3)];
    assert AffectedPaths(Root, xs) == AffectedPaths(Root, ys) + AffectedPaths(Root, zs) + AffectedPaths(Root, ws) by {
      assert xs == ys + zs + ws;
      AffectedPathsAppend(Root, ys + zs, ws);
      AffectedPathsAppend(Root, ys, zs);
    }
    assert AffectedPaths(Root, ys) == {PathA, Root} by {
      NodeWithPropertyAffected(Root, Root, "a", PathA, k1, v1);
      TreeWalks();
    }
    assert AffectedPaths(Root, zs) == {PathAB, PathA, Root} by {
      NodeWithPropertyAffected(Root, PathA, "b", PathAB, k2, v2);
      TreeWalks();
    }
    assert AffectedPaths(Root, ws) == {PathAC, PathA, Root} by {
      NodeWithPropertyAffected(Root, PathA, "c", PathAC, k3, v3);
      TreeWalks();
    }
    BranchUnion(Root, PathA, PathAB, PathAC);
  }




  /** A commit that writes exactly one property of `p` sets exactly that property. */
  lemma SingleWrite(xs: seq<Instruction>, p: Path, i: nat)
    requires i < |xs| && xs[i].AddProperty? && xs[i].path == p
    requires forall j :: 0 <= j < |xs| && j != i ==> !(xs[j].AddProperty? && xs[j].path == p)
    ensures CommitProperties(xs, p) == map[xs[i].key := xs[i].value]
  {
    var m := CommitProperties(xs, p);
    forall key
      ensures key in m <==> key == xs[i].key
      ensures key in m ==> m[key] == xs[i].value
    {
      CommitPropertiesSpec(xs, p, key);
      assert key == xs[i].key ==> WritesProperty(xs[i], p, key);
    }
  }

  /** A commit without removals keeps a node alive. */
  lemma StaysAlive(docs: Store, xs: seq<Instruction>, rev: nat, committed: set<nat>, p: Path, r: nat)
    requires WellFormed(docs) && Ordered(docs, rev) && rev !in committed
    requires NoRemovals(xs)
    requires ExistsAt(docs, committed, p, r)
    ensures ExistsAt(ApplyAll(docs, xs, rev), committed + {rev}, p, r)
  {
    ExistenceAfterCommit(docs, xs, rev, committed, p, r);
    if LastExistenceWrite(xs, p).Some? {
      var i :| 0 <= i < |xs| && WritesExistence(xs[i], p) && LastExistenceWrite(xs, p).value == xs[i].AddNode?;
    }
  }

  /** A node that a commit without removals creates is alive from the commit's revision on. */
  lemma CreatedAlive(docs: Store, xs: seq<Instruction>, rev: nat, committed: set<nat>, p: Path, r: nat)
    requires WellFormed(docs) && Ordered(docs, rev) && rev !in committed && rev <= r
    requires NoRemovals(xs)
    requires Creates(xs, p)
    ensures ExistsAt(ApplyAll(docs, xs, rev), committed + {rev}, p, r)
  {
    ExistenceAfterCommit(docs, xs, rev, committed, p, r);
    var j :| 0 <= j < |xs| && xs[j].AddNode? && Target(xs[j]) == p;
    assert WritesExistence(xs[j], p);
  }

  /** The properties each of the two commits sets on `/a`, `/a/b` and `/a/c`. */
  lemma CreateAndReAddSet()
    ensures CommitProperties(CreateCommit(), ["a"]) == map["int" := "1"]
    ensures CommitProperties(CreateCommit(), ["a", "b"]) == map["string" := "\"foo\""]
    ensures CommitProperties(CreateCommit(), ["a", "c"]) == map["bool" := "true"]
    ensures CommitProperties(ReAddCommit(), ["a"]) == map["key1" := "value1"]
    ensures CommitProperties(ReAddCommit(), ["a", "b"]) == map["key2" := "value2"]
    ensures CommitProperties(ReAddCommit(), ["a", "c"]) == map["key3" := "value3"]
  {
    assert ["a", "b"] != ["a"] && ["a", "c"] != ["a"] && ["a", "b"] != ["a", "c"];
    SingleWrite(CreateCommit(), ["a"], 1);
    SingleWrite(CreateCommit(), ["a", "b"], 3);
    SingleWrite(CreateCommit(), ["a", "c"], 5);
    SingleWrite(ReAddCommit(), ["a"], 1);
    SingleWrite(ReAddCommit(), ["a", "b"], 3);
    SingleWrite(ReAddCommit(), ["a", "c"], 5);
  }

  /** The documents after the simple node scenario's first commit and the commit that re-adds its nodes. */
  function ReAddDocs(): Store
  {
    ApplyAll(ApplyAll(map[Root := RootDocument], CreateCommit(), 1), ReAddCommit(), 2)
  }

  /** After both commits, `/a`, `/a/b` and `/a/c` are alive at revision 2 with the old and the new properties. */
  lemma ReAddRead(p: Path)
    requires p == ["a"] || p == ["a", "b"] || p == ["a", "c"]
    ensures ExistsAt(ReAddDocs(), {0, 1, 2}, p, 2)
    ensures PropertiesAt(ReAddDocs(), {0, 1, 2}, p, 2) == CommitProperties(CreateCommit(), p) + CommitProperties(ReAddCommit(), p)
  {
    var docs1 := ApplyAll(map[Root := RootDocument], CreateCommit(), 1);
    var xs := ReAddCommit();
    InitialOrdered();
    NewDocumentsValid(map[Root := RootDocument], CreateCommit(), 1);
    CommittedAfterTwo();
    assert NoRemovals(xs);
    assert Target(xs[0]) == ["a"] && Target(xs[2]) == ["a", "b"] && Target(xs[4]) == ["a", "c"];
    CreatedAlive(docs1, xs, 2, {0, 1}, p, 2);
    MergeProperties(CreateCommit(), xs, p);
  }

  /** Read at revision 2, a node the re-adding commit affects carries revision 2 and both commits' properties. */
  lemma ReAddResolved(history: History, p: Path)
    requires history.Keys == {0, 1, 2} && 2 in history && p in history[2].affectedPaths
    requires p == ["a"] || p == ["a", "b"] || p == ["a", "c"]
    ensures ResolveIn(ReAddDocs(), history, p, 2).Some?
    ensures ResolveIn(ReAddDocs(), history, p, 2).value.revision == Some(2)
    ensures ResolveIn(ReAddDocs(), history, p, 2).value.properties
              == CommitProperties(CreateCommit(), p) + CommitProperties(ReAddCommit(), p)
  {
    ReAddRead(p);
  }

  /** The old and the new property of each node, merged. */
  lemma ReAddMerged()
    ensures map["int" := "1"] + map["key1" := "value1"] == map["int" := "1", "key1" := "value1"]
    ensures map["string" := "\"foo\""] + map["key2" := "value2"] == map["string" := "\"foo\"", "key2" := "value2"]
    ensures map["bool" := "true"] + map["key3" := "value3"] == map["bool" := "true", "key3" := "value3"]
  {
  }

  /** The simple node scenario's first commit, then a commit adding the same nodes with other properties. */
  function ReAddRequests(): seq<Request>
  {
    [Request("This is a simple commit", Root, CreateCommit()), Request("This is a simple commit", Root, ReAddCommit())]
  }

  /**
   * After those commits the second reports the root, `/a`, `/a/b` and
   * `/a/c` as affected; read at revision 2 each of them carries revision 2,
   * and each node holds its old property beside the new one.
   */
  lemma ReAddScenario(docs: Store, history: History)
    requires docs == ReplayDocs(ReAddRequests()) && history == ReplayHistory(ReAddRequests())
    requires ExistenceLog(docs, Root) == [Entry(0, true)]
    ensures 2 in history && history[2].affectedPaths == {Root, PathA, PathAB, PathAC}
    ensures ReadsRevision(docs, history, Root, 2, 2) && ReadsRevision(docs, history, PathA, 2, 2)
    ensures ReadsRevision(docs, history, PathAB, 2, 2) && ReadsRevision(docs, history, PathAC, 2, 2)
    ensures ReadsProperties(docs, history, PathA, 2, map["int" := "1", "key1" := "value1"])
    ensures ReadsProperties(docs, history, PathAB, 2, map["string" := "\"foo\"", "key2" := "value2"])
    ensures ReadsProperties(docs, history, PathAC, 2, map["bool" := "true", "key3" := "value3"])
  {
    var qs := ReAddRequests();
    TwoRecords(qs, history);
    assert docs == ReAddDocs() by {
      ReplayTwo(qs[0], qs[1]);
      assert qs == [qs[0], qs[1]];
    }
    TreeWithPropertiesAffected(ReAddCommit(), "key1", "value1", "key2", "value2", "key3", "value3");
    RootAlwaysExists(docs, history, 2);
    ReAddResolved(history, PathA);
    ReAddResolved(history, PathAB);
    ReAddResolved(history, PathAC);
    CreateAndReAddSet();
    ReAddMerged();
  }

  /**
   * Re-adding nodes that exist: the commit reports the root, `/a`, `/a/b`
   * and `/a/c` as affected, each of them read at its revision carries that
   * revision, and each node keeps its old property beside the new one.
   */
  method CommitAddNodesWhichAlreadyExist()
    returns (affected: set<Path>, revisions: seq<Option<nat>>, a: map<string, string>, b: map<string, string>,
             c: map<string, string>)
    ensures affected == {Root, ["a"], ["a", "b"], ["a", "c"]}
    ensures revisions == [Some(2), Some(2), Some(2), Some(2)]
    ensures a == map["int" := "1", "key1" := "value1"]
    ensures b == map["string" := "\"foo\"", "key2" := "value2"]
    ensures c == map["bool" := "true", "key3" := "value3"]
  {
    var store, revs := Replay(ReAddRequests());
    ReAddScenario(store.docs, store.history);
    affected := store.AffectedPathsOf(revs[1]).value;
    revisions := [store.Resolve(Root, 2).value.revision, store.Resolve(PathA, 2).value.revision,
                  store.Resolve(PathAB, 2).value.revision, store.Resolve(PathAC, 2).value.revision];
    a := store.Resolve(PathA, 2).value.properties;
    b := store.Resolve(PathAB, 2).value.properties;
    c := store.Resolve(PathAC, 2).value.properties;
  }


  /** The documents after the three commits of the merge test. */
  function CommitAndMergeDocs(): Store
  {
    ApplyAll(ApplyAll(ApplyAll(map[Root := RootDocument], CreateCommit(), 1), UpdateAAndAddDAndE(), 2), CreateCommit(), 3)
  }

  /** The commit removes no node. */
  predicate NoRemovals(xs: seq<Instruction>)
  {
    forall j :: 0 <= j < |xs| ==> !xs[j].RemoveNode?
  }

  /** The commit creates the node at `p`. */
  predicate Creates(xs: seq<Instruction>, p: Path)
  {
    exists j :: 0 <= j < |xs| && xs[j].AddNode? && Target(xs[j]) == p
  }

  /** A node the first of two commits without removals creates is alive from revision 1 on. */
  lemma AliveFromFirst(docs0: Store, x1: seq<Instruction>, x2: seq<Instruction>, p: Path, r: nat)
    requires WellFormed(docs0) && Ordered(docs0, 1)
    requires NoRemovals(x1)
    requires NoRemovals(x2)
    requires 1 <= r && Creates(x1, p)
    ensures ExistsAt(ApplyAll(ApplyAll(docs0, x1, 1), x2, 2), {0} + {1} + {2}, p, r)
  {
    var docs1 := ApplyAll(docs0, x1, 1);
    assert WellFormed(docs1) && Ordered(docs1, 2) by { NewDocumentsValid(docs0, x1, 1); }
    assert ExistsAt(docs1, {0} + {1}, p, r) by { CreatedAlive(docs0, x1, 1, {0}, p, r); }
    StaysAlive(docs1, x2, 2, {0} + {1}, p, r);
  }

  /** A node the second of two commits without removals creates is alive from revision 2 on. */
  lemma AliveFromSecond(docs0: Store, x1: seq<Instruction>, x2: seq<Instruction>, p: Path, r: nat)
    requires WellFormed(docs0) && Ordered(docs0, 1)
    requires NoRemovals(x2)
    requires 2 <= r && Creates(x2, p)
    ensures ExistsAt(ApplyAll(ApplyAll(docs0, x1, 1), x2, 2), {0} + {1} + {2}, p, r)
  {
    NewDocumentsValid(docs0, x1, 1);
    CreatedAlive(ApplyAll(docs0, x1, 1), x2, 2, {0} + {1}, p, r);
  }

  /** A node created by one of two commits without removals is alive from that commit's revision on. */
  lemma AliveAfterTwoCommits(docs0: Store, x1: seq<Instruction>, x2: seq<Instruction>, p: Path, r: nat)
    requires WellFormed(docs0) && Ordered(docs0, 1)
    requires NoRemovals(x1)
    requires NoRemovals(x2)
    requires (1 <= r && Creates(x1, p)) || (2 <= r && Creates(x2, p))
    ensures ExistsAt(ApplyAll(ApplyAll(docs0, x1, 1), x2, 2), {0, 1, 2}, p, r)
  {
    if 1 <= r && Creates(x1, p) {
      AliveFromFirst(docs0, x1, x2, p, r);
    } else {
      AliveFromSecond(docs0, x1, x2, p, r);
    }
    CommittedAfterOne();
    CommittedAfterTwo();
  }


  /** The documents after two commits are well formed and ordered below the third revision. */
  lemma TwoCommitsValid(docs0: Store, x1: seq<Instruction>, x2: seq<Instruction>)
    requires WellFormed(docs0) && Ordered(docs0, 1)
    ensures WellFormed(ApplyAll(ApplyAll(docs0, x1, 1), x2, 2)) && Ordered(ApplyAll(ApplyAll(docs0, x1, 1), x2, 2), 3)
  {
    NewDocumentsValid(docs0, x1, 1);
    NewDocumentsValid(ApplyAll(docs0, x1, 1), x2, 2);
  }

  /** A node created by one of three commits without removals is alive from that commit's revision on. */
  lemma AliveAfterThreeCommits(docs0: Store, x1: seq<Instruction>, x2: seq<Instruction>, x3: seq<Instruction>,
                               p: Path, r: nat)
    requires WellFormed(docs0) && Ordered(docs0, 1)
    requires NoRemovals(x1)
    requires NoRemovals(x2)
    requires NoRemovals(x3)
    requires (1 <= r && Creates(x1, p)) || (2 <= r && Creates(x2, p)) || (3 <= r && Creates(x3, p))
    ensures ExistsAt(ApplyAll(ApplyAll(ApplyAll(docs0, x1, 1), x2, 2), x3, 3), {0, 1, 2, 3}, p, r)
  {
    var docs2 := ApplyAll(ApplyAll(docs0, x1, 1), x2, 2);
    TwoCommitsValid(docs0, x1, x2);
    var c2: set<nat> := {0, 1, 2};
    CommittedAfterThree();
    if (1 <= r && Creates(x1, p)) || (2 <= r && Creates(x2, p)) {
      AliveAfterTwoCommits(docs0, x1, x2, p, r);
      StaysAlive(docs2, x3, 3, c2, p, r);
    } else {
      CreatedAlive(docs2, x3, 3, c2, p, r);
    }
  }

  /**
   * In the merge test, `/a`, `/a/b` and `/a/c` are alive from revision 1
   * on, and `/a/d` and `/a/b/e` from revision 2 on.
   */
  lemma CommitAndMergeExists(p: Path, r: nat)
    requires 1 <= r <= 3
    requires p == ["a"] || p == ["a", "b"] || p == ["a", "c"] || (2 <= r && (p == ["a", "d"] || p == ["a", "b", "e"]))
    ensures ExistsAt(CommitAndMergeDocs(), {0, 1, 2, 3}, p, r)
  {
    InitialOrdered();
    CreateCommitShape();
    UpdateShape();
    AliveAfterThreeCommits(map[Root := RootDocument], CreateCommit(), UpdateAAndAddDAndE(), CreateCommit(), p, r);
  }

  /** The simple scenario's commit removes nothing and creates `/a`, `/a/b` and `/a/c`. */
  lemma CreateCommitShape()
    ensures NoRemovals(CreateCommit())
    ensures Creates(CreateCommit(), ["a"]) && Creates(CreateCommit(), ["a", "b"]) && Creates(CreateCommit(), ["a", "c"])
  {
    var xs := CreateCommit();
    assert Target(xs[0]) == ["a"] && Target(xs[2]) == ["a", "b"] && Target(xs[4]) == ["a", "c"];
  }

  /** The update removes nothing and creates `/a/d` and `/a/b/e`. */
  lemma UpdateShape()
    ensures NoRemovals(UpdateAAndAddDAndE())
    ensures Creates(UpdateAAndAddDAndE(), ["a", "d"]) && Creates(UpdateAAndAddDAndE(), ["a", "b", "e"])
  {
    var xs := UpdateAAndAddDAndE();
    assert Target(xs[1]) == ["a", "d"] && Target(xs[3]) == ["a", "b", "e"];
  }


  /** The node revisions the merge test reads: each node carries the newest commit that affected it. */
  lemma CommitAndMergeRevisions(history: History)
    requires history.Keys == {0, 1, 2, 3} && history[0].affectedPaths == {Root}
    requires history[1].affectedPaths == {Root, ["a"], ["a", "b"], ["a", "c"]}
    requires history[2].affectedPaths == {["a"], ["a", "b"], ["a", "d"], ["a", "b", "e"]}
    requires history[3].affectedPaths == {Root, ["a"], ["a", "b"], ["a", "c"]}
    ensures LastAffecting(history, Root, 1) == Some(1) && LastAffecting(history, ["a"], 1) == Some(1)
    ensures LastAffecting(history, ["a", "b"], 1) == Some(1) && LastAffecting(history, ["a", "c"], 1) == Some(1)
    ensures LastAffecting(history, Root, 2) == Some(1) && LastAffecting(history, ["a"], 2) == Some(2)
    ensures LastAffecting(history, ["a", "b"], 2) == Some(2) && LastAffecting(history, ["a", "c"], 2) == Some(1)
    ensures LastAffecting(history, ["a", "d"], 2) == Some(2) && LastAffecting(history, ["a", "b", "e"], 2) == Some(2)
    ensures LastAffecting(history, Root, 3) == Some(3) && LastAffecting(history, ["a"], 3) == Some(3)
    ensures LastAffecting(history, ["a", "b"], 3) == Some(3) && LastAffecting(history, ["a", "c"], 3) == Some(3)
    ensures LastAffecting(history, ["a", "d"], 3) == Some(2) && LastAffecting(history, ["a", "b", "e"], 3) == Some(2)
  {
    assert ["a", "c"] !in history[2].affectedPaths;
    assert ["a", "d"] !in history[3].affectedPaths && ["a", "b", "e"] !in history[3].affectedPaths;
  }

  /** A node of the merge test that exists at `r` is read with the newest commit that affected it. */
  lemma CommitAndMergeRead(history: History, p: Path, r: nat)
    requires history.Keys == {0, 1, 2, 3}
    requires 1 <= r <= 3
    requires p == ["a"] || p == ["a", "b"] || p == ["a", "c"] || (2 <= r && (p == ["a", "d"] || p == ["a", "b", "e"]))
    ensures ResolveIn(CommitAndMergeDocs(), history, p, r).Some?
    ensures ResolveIn(CommitAndMergeDocs(), history, p, r).value.revision == LastAffecting(history, p, r)
  {
    CommitAndMergeExists(p, r);
  }

  /** The merge test's commits: the simple scenario under `/`, its update under `/a`, the simple scenario again. */
  function MergeRequests(): seq<Request>
  {
    [Request("This is a simple commit", Root, CreateCommit()), Request("This is a simple commit", ["a"], UpdateAAndAddDAndE()),
     Request("This is a simple commit", Root, CreateCommit())]
  }

  /** The merge test's commits take revisions 1 to 3 and record the affected sets of the scenario, its update and the scenario again. */
  lemma MergeTestRecords(history: History)
    requires history == ReplayHistory(MergeRequests())
    ensures history.Keys == {0, 1, 2, 3} && history[0].affectedPaths == {Root}
    ensures history[1].affectedPaths == {Root, ["a"], ["a", "b"], ["a", "c"]}
    ensures history[2].affectedPaths == {["a"], ["a", "b"], ["a", "d"], ["a", "b", "e"]}
    ensures history[3].affectedPaths == {Root, ["a"], ["a", "b"], ["a", "c"]}
  {
    ThreeRecords(MergeRequests(), history);
    TreeWithPropertiesAffected(CreateCommit(), "int", "1", "string", "\"foo\"", "bool", "true");
    UpdateAAndAddDAndEAffected();
  }

  /** Replaying the merge test's commits gives its documents. */
  lemma MergeTestDocs()
    ensures ReplayDocs(MergeRequests()) == CommitAndMergeDocs()
  {
    var qs := MergeRequests();
    ReplayThree(qs[0], qs[1], qs[2]);
    assert qs == [qs[0], qs[1], qs[2]];
  }

  /** A node the merge test reads at `r`: the root, the simple scenario's nodes, and from revision 2 on the update's new nodes. */
  predicate MergeTestNode(p: Path, r: nat)
  {
    1 <= r <= 3
    && (p == Root || p == ["a"] || p == ["a", "b"] || p == ["a", "c"] || (2 <= r && (p == ["a", "d"] || p == ["a", "b", "e"])))
  }

  /**
   * Every node the merge test reads exists at the revision it is read at
   * and carries the newest commit that affected it; from revision 2 on
   * `/a` holds `int` and `double`.
   */
  lemma MergeTestReads(docs: Store, history: History)
    requires docs == CommitAndMergeDocs() && history.Keys == {0, 1, 2, 3}
    requires ExistenceLog(docs, Root) == [Entry(0, true)]
    ensures forall p, r :: MergeTestNode(p, r) ==>
              ResolveIn(docs, history, p, r).Some? && ResolveIn(docs, history, p, r).value.revision == LastAffecting(history, p, r)
    ensures forall r :: 2 <= r <= 3 ==>
              ResolveIn(docs, history, ["a"], r).Some?
              && ResolveIn(docs, history, ["a"], r).value.properties == map["int" := "1", "double" := "0.123"]
  {
    forall p, r | MergeTestNode(p, r)
      ensures ResolveIn(docs, history, p, r).Some?
      ensures ResolveIn(docs, history, p, r).value.revision == LastAffecting(history, p, r)
    {
      if p == Root {
        RootAlwaysExists(docs, history, r);
      } else {
        CommitAndMergeRead(history, p, r);
      }
    }
    forall r | 2 <= r <= 3
      ensures ResolveIn(docs, history, ["a"], r).Some?
      ensures ResolveIn(docs, history, ["a"], r).value.properties == map["int" := "1", "double" := "0.123"]
    {
      CommitAndMergeRead(history, ["a"], r);
      CommitAndMergePropertiesOfA(r);
    }
  }

  /** The first three revisions, in order. */
  lemma FirstRevisions(revs: seq<nat>)
    requires |revs| == 3 && forall i :: 0 <= i < 3 ==> revs[i] == i + 1
    ensures revs == [1, 2, 3]
  {
  }

  /** The node at `p` exists at `r` and carries revision `k`. */
  predicate ReadsRevision(docs: Store, history: History, p: Path, r: nat, k: nat)
  {
    ResolveIn(docs, history, p, r).Some? && ResolveIn(docs, history, p, r).value.revision == Some(k)
  }

  /** The node at `p` exists at `r` and holds the properties `m`. */
  predicate ReadsProperties(docs: Store, history: History, p: Path, r: nat, m: map<string, string>)
  {
    ResolveIn(docs, history, p, r).Some? && ResolveIn(docs, history, p, r).value.properties == m
  }

  /**
   * The merge test's reads: at revision 1 every node of the simple
   * scenario carries 1; at revision 2 the nodes the update touched carry 2
   * while the root and `c` keep 1; at revision 3 the re-created nodes carry
   * 3 and `d` and `e` keep 2; from revision 2 on `/a` holds `int` and `double`.
   */
  lemma MergeScenarioReads(docs: Store, history: History)
    requires docs == ReplayDocs(MergeRequests()) && history == ReplayHistory(MergeRequests())
    requires ExistenceLog(docs, Root) == [Entry(0, true)]
    ensures ReadsRevision(docs, history, Root, 1, 1) && ReadsRevision(docs, history, PathA, 1, 1)
    ensures ReadsRevision(docs, history, PathAB, 1, 1) && ReadsRevision(docs, history, PathAC, 1, 1)
    ensures ReadsRevision(docs, history, Root, 2, 1) && ReadsRevision(docs, history, PathA, 2, 2)
    ensures ReadsRevision(docs, history, PathAB, 2, 2) && ReadsRevision(docs, history, PathAC, 2, 1)
    ensures ReadsRevision(docs, history, PathAD, 2, 2) && ReadsRevision(docs, history, PathABE, 2, 2)
    ensures ReadsRevision(docs, history, Root, 3, 3) && ReadsRevision(docs, history, PathA, 3, 3)
    ensures ReadsRevision(docs, history, PathAB, 3, 3) && ReadsRevision(docs, history, PathAC, 3, 3)
    ensures ReadsRevision(docs, history, PathAD, 3, 2) && ReadsRevision(docs, history, PathABE, 3, 2)
    ensures ReadsProperties(docs, history, PathA, 2, map["int" := "1", "double" := "0.123"])
    ensures ReadsProperties(docs, history, PathA, 3, map["int" := "1", "double" := "0.123"])
  {
    MergeTestRecords(history);
    MergeTestDocs();
    CommitAndMergeRevisions(history);
    MergeTestReads(docs, history);
    assert MergeTestNode(Root, 1) && MergeTestNode(PathA, 1) && MergeTestNode(PathAB, 1) && MergeTestNode(PathAC, 1);
    assert MergeTestNode(Root, 2) && MergeTestNode(PathA, 2) && MergeTestNode(PathAB, 2) && MergeTestNode(PathAC, 2);
    assert MergeTestNode(PathAD, 2) && MergeTestNode(PathABE, 2);
    assert MergeTestNode(Root, 3) && MergeTestNode(PathA, 3) && MergeTestNode(PathAB, 3) && MergeTestNode(PathAC, 3);
    assert MergeTestNode(PathAD, 3) && MergeTestNode(PathABE, 3);
  }

  /**
   * The merge test reads the tree at each of the three revisions: at the
   * first the simple scenario's nodes carry revision 1; at the second the
   * updated nodes and the new `d` and `e` carry revision 2 while the root
   * and `c` keep 1; at the third the re-created nodes carry 3 and `d` and
   * `e`, untouched by it, keep 2. From the second revision on `/a` holds
   * both its `int` and the `double` the update added.
   */
  method CommitAndMergeNodes() returns (revs: seq<nat>, first: seq<Option<nat>>, second: seq<Option<nat>>,
                                        third: seq<Option<nat>>, propertiesOfA: seq<map<string, string>>)
    ensures revs == [1, 2, 3]
    ensures first == [Some(1), Some(1), Some(1), Some(1)]
    ensures second == [Some(1), Some(2), Some(2), Some(1), Some(2), Some(2)]
    ensures third == [Some(3), Some(3), Some(3), Some(3), Some(2), Some(2)]
    ensures propertiesOfA == [map["int" := "1", "double" := "0.123"], map["int" := "1", "double" := "0.123"]]
  {
    var store;
    store, revs := Replay(MergeRequests());
    FirstRevisions(revs);
    MergeScenarioReads(store.docs, store.history);
    first := [store.Resolve(Root, 1).value.revision, store.Resolve(PathA, 1).value.revision,
              store.Resolve(PathAB, 1).value.revision, store.Resolve(PathAC, 1).value.revision];
    second := [store.Resolve(Root, 2).value.revision, store.Resolve(PathA, 2).value.revision,
               store.Resolve(PathAB, 2).value.revision, store.Resolve(PathAC, 2).value.revision,
               store.Resolve(PathAD, 2).value.revision, store.Resolve(PathABE, 2).value.revision];
    third := [store.Resolve(Root, 3).value.revision, store.Resolve(PathA, 3).value.revision,
              store.Resolve(PathAB, 3).value.revision, store.Resolve(PathAC, 3).value.revision,
              store.Resolve(PathAD, 3).value.revision, store.Resolve(PathABE, 3).value.revision];
    propertiesOfA := [store.Resolve(PathA, 2).value.properties, store.Resolve(PathA, 3).value.properties];
  }

  /** Three commits' properties: a read before the third sees the first two merged, a read after it all three. */
  lemma ThreeCommitProperties(docs0: Store, x1: seq<Instruction>, x2: seq<Instruction>, x3: seq<Instruction>,
                              p: Path, r: nat)
    requires WellFormed(docs0) && Ordered(docs0, 1) && 2 <= r
    ensures r == 2 ==> PropertiesAt(ApplyAll(ApplyAll(ApplyAll(docs0, x1, 1), x2, 2), x3, 3), {0, 1, 2, 3}, p, r)
                         == PropertiesAt(docs0, {0}, p, r) + CommitProperties(x1, p) + CommitProperties(x2, p)
    ensures 3 <= r ==> PropertiesAt(ApplyAll(ApplyAll(ApplyAll(docs0, x1, 1), x2, 2), x3, 3), {0, 1, 2, 3}, p, r)
                         == PropertiesAt(docs0, {0}, p, r) + CommitProperties(x1, p) + CommitProperties(x2, p)
                            + CommitProperties(x3, p)
  {
    var docs2 := ApplyAll(ApplyAll(docs0, x1, 1), x2, 2);
    TwoCommitsValid(docs0, x1, x2);
    TwoCommitProperties(docs0, x1, x2, p, r);
    CommittedAfterThree();
    if r == 2 {
      PropertiesUnseen(docs2, x3, 3, {0, 1, 2}, {0, 1, 2, 3}, p, 2);
    } else {
      PropertiesAfterCommit(docs2, x3, 3, {0, 1, 2}, p, r);
    }
  }

  /** The update sets only `double` on `/a`. */
  lemma UpdateSetsDouble()
    ensures CommitProperties(UpdateAAndAddDAndE(), ["a"]) == map["double" := "0.123"]
  {
    var ys, a: Path := UpdateAAndAddDAndE(), ["a"];
    assert CommitProperties(ys[..1], a) == map["double" := "0.123"] by { assert ys[..1][..0] == []; }
    assert CommitProperties(ys[..2], a) == map["double" := "0.123"] by { assert ys[..2][..1] == ys[..1]; }
    assert CommitProperties(ys[..3], a) == map["double" := "0.123"] by { assert ys[..3][..2] == ys[..2]; }
    assert CommitProperties(ys[..4], a) == map["double" := "0.123"] by { assert ys[..4][..3] == ys[..3]; }
    assert ys[..5] == ys;
  }

  /** Merging `int` and `double`, then `int` again with the same value. */
  lemma IntDoubleMerge(m0: map<string, string>)
    requires m0 == map[]
    ensures m0 + map["int" := "1"] + map["double" := "0.123"] == map["int" := "1", "double" := "0.123"]
    ensures m0 + map["int" := "1"] + map["double" := "0.123"] + map["int" := "1"]
              == map["int" := "1", "double" := "0.123"]
  {
    var m := map["int" := "1", "double" := "0.123"];
    assert (m0 + map["int" := "1"] + map["double" := "0.123"]).Keys == m.Keys;
    assert (m0 + map["int" := "1"] + map["double" := "0.123"] + map["int" := "1"]).Keys == m.Keys;
  }

  /**
   * At the second and third revision of the merge test `/a` holds the
   * `int` set by the simple scenario and the `double` added by its
   * update: re-creating the scenario rewrites `int` with the same value
   * and leaves `double` in place.
   */
  lemma CommitAndMergePropertiesOfA(r: nat)
    requires 2 <= r <= 3
    ensures PropertiesAt(CommitAndMergeDocs(), {0, 1, 2, 3}, ["a"], r) == map["int" := "1", "double" := "0.123"]
  {
    InitialOrdered();
    ThreeCommitProperties(map[Root := RootDocument], CreateCommit(), UpdateAAndAddDAndE(), CreateCommit(), ["a"], r);
    InitialProperties(["a"], r);
    CreateAndReAddSet();
    UpdateSetsDouble();
    IntDoubleMerge(PropertiesAt(map[Root := RootDocument], {0}, ["a"], r));
  }
}
