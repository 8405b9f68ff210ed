/**
 * The revisioned node store: a document collection, the commit records,
 * the head revision (newest committed) and the revision counter. A commit
 * takes the next revision, appends its entries document by document and
 * writes its commit record last; the record is what makes the revision
 * visible to readers.
 */
module NodeStores {
  import opened Wrappers
  import opened Paths
  import opened Documents
  import opened Translation
  import opened Resolution

  datatype StoreError = PersistenceError

  /** The root node, alive from revision 0 on. */
  const RootDocument: Document := Document(Root, [Entry(0, true)], map[], 0)

  /** The record of revision 0, the initial repository holding only the root. */
  const InitialCommit: CommitRecord := CommitRecord("", Root, [], {Root})

  class NodeStore {
    var docs: Store
    var history: History
    var head: nat
    var next: nat

    ghost predicate Valid()
      reads this
    {
      StoreInvariant(docs, history, head, next)
    }

    /** A repository holding only the root node, committed as revision 0. */
    constructor ()
      ensures Valid()
      ensures docs == map[Root := RootDocument] && history == map[0 := InitialCommit]
      ensures head == 0 && next == 1
    {
      docs := map[Root := RootDocument];
      history := map[0 := InitialCommit];
      head := 0;
      next := 1;
    }

    /** The newest revision whose commit record exists. */
    function HeadRevision(): (r: nat)
      reads this
      requires Valid()
      ensures r in history && forall c :: c in history ==> c <= r
    {
      head
    }

    /** The revision the next commit will take: above every revision handed out. */
    function NextRevision(): (r: nat)
      reads this
      requires Valid()
      ensures r > HeadRevision() && forall c :: c in history ==> c < r
    {
      next
    }

    /** The affected paths recorded for a revision; None when it is not committed. */
    function AffectedPathsOf(rev: nat): (paths: Option<set<Path>>)
      reads this
      ensures paths.Some? <==> rev in history
      ensures paths.Some? ==> paths.value == history[rev].affectedPaths
    {
      if rev in history then Some(history[rev].affectedPaths) else None
    }

    /**
     * The node at `p` as read at revision `r`: present iff alive then,
     * with the newest revision that affected it and its live children.
     */
    function Resolve(p: Path, r: nat): (n: Option<NodeState>)
      reads this
      ensures n.Some? <==> ExistsAt(docs, history.Keys, p, r)
      ensures n.Some? ==> n.value.revision == LastAffecting(history, p, r)
      ensures n.Some? ==> forall name :: name in n.value.children <==> ExistsAt(docs, history.Keys, p + [name], r)
    {
      ResolveSpec(docs, history, p, r);
      ResolveIn(docs, history, p, r)
    }

    /**
     * Commits the instructions under `rootPath`. The commit takes the next
     * revision, then writes each instruction's entry in list order and
     * finally its commit record, which makes the revision head. `failAt`
     * stands for the collection rejecting a write: `Some(k)` with `k` below
     * the instruction count fails the `k`-th document write, any larger `k`
     * the commit record's write. A failed commit keeps the writes made
     * before the failure, consumes its revision and records nothing, so
     * the revision never becomes visible.
     */
    method Execute(message: string, rootPath: Path, instructions: seq<Instruction>, failAt: Option<nat>)
      returns (result: Result<nat, StoreError>)
      requires Valid()
      modifies this
      ensures Valid()
      ensures next == old(next) + 1
      ensures failAt.None? ==>
                && result == Success(old(next))
                && docs == ApplyAll(old(docs), instructions, old(next))
                && history == old(history)[old(next) := CommitRecord(message, rootPath, instructions,
                                                                    AffectedPaths(rootPath, instructions))]
                && head == old(next)
      ensures failAt.Some? ==>
                && result == Failure(PersistenceError)
                && docs == ApplyAll(old(docs), instructions[..Min(failAt.value, |instructions|)], old(next))
                && history == old(history)
                && head == old(head)
      ensures forall p, r: nat :: r < old(next) ==> ResolveIn(docs, history, p, r) == ResolveIn(old(docs), old(history), p, r)
      ensures failAt.Some? ==> forall p, r: nat :: ResolveIn(docs, history, p, r) == ResolveIn(old(docs), old(history), p, r)
    {
      var rev := next;
      next := next + 1;
      var limit := if failAt.Some? then Min(failAt.value, |instructions|) else |instructions|;
      var affected := WriteEntries(rootPath, instructions, limit, rev);
      var record := CommitRecord(message, rootPath, instructions, affected);
      if failAt.Some? {
        CommitKeepsInvariant(old(docs), history, head, rev, instructions[..limit], record, false);
        forall p, r: nat
          ensures ResolveIn(docs, history, p, r) == ResolveIn(old(docs), history, p, r)
        {
          ResolveUnseen(old(docs), history, instructions[..limit], rev, false, record, p, r);
        }
        return Failure(PersistenceError);
      }
      assert instructions[..|instructions|] == instructions;
      CommitKeepsInvariant(old(docs), history, head, rev, instructions, record, true);
      forall p, r: nat | r < rev
        ensures ResolveIn(docs, history[rev := record], p, r) == ResolveIn(old(docs), history, p, r)
      {
        ResolveUnseen(old(docs), history, instructions, rev, true, record, p, r);
      }
      history := history[rev := record];
      head := rev;
      return Success(rev);
    }

    /**
     * Writes the entries of the first `limit` instructions, in list order,
     * at revision `rev`, and gathers the paths they affect.
     */
    method WriteEntries(rootPath: Path, instructions: seq<Instruction>, limit: nat, rev: nat)
      returns (affected: set<Path>)
      requires limit <= |instructions|
      modifies this
      ensures docs == ApplyAll(old(docs), instructions[..limit], rev)
      ensures affected == AffectedPaths(rootPath, instructions[..limit])
      ensures history == old(history) && head == old(head) && next == old(next)
    {
      affected := {};
      var i := 0;
      while i < limit
        invariant 0 <= i <= limit
        invariant docs == ApplyAll(old(docs), instructions[..i], rev)
        invariant affected == AffectedPaths(rootPath, instructions[..i])
        invariant history == old(history) && head == old(head) && next == old(next)
      {
        assert instructions[..i + 1][..i] == instructions[..i];
        docs := Apply(docs, instructions[i], rev);
        affected := affected + UpTo(rootPath, Touched(instructions[i]));
        i := i + 1;
      }
    }
  }

  /**
   * The store's invariant: documents sit under their paths, every log is
   * ordered and older than the next revision, revision 0 and the head
   * are committed, the head is the newest commit, and the root's
   * existence log is the initial one.
   */
  ghost predicate StoreInvariant(docs: Store, history: History, head: nat, next: nat)
  {
    WellFormed(docs) && Ordered(docs, next)
    && 0 in history && head in history && head < next
    && (forall c :: c in history ==> c <= head)
    && ExistenceLog(docs, Root) == [Entry(0, true)]
  }

  /**
   * A commit at the next revision keeps the invariant, whether its record
   * is written (the revision becomes head) or not (the head stays).
   */
  lemma CommitKeepsInvariant(docs: Store, history: History, head: nat, rev: nat, xs: seq<Instruction>,
                             record: CommitRecord, recorded: bool)
    requires StoreInvariant(docs, history, head, rev)
    ensures StoreInvariant(ApplyAll(docs, xs, rev), if recorded then history[rev := record] else history,
                           if recorded then rev else head, rev + 1)
  {
    NewDocumentsValid(docs, xs, rev);
  }

  function Min(a: nat, b: nat): nat
  {
    if a < b then a else b
  }

  /**
   * The documents a commit leaves behind are well formed and ordered below
   * the next revision, and the root's existence log is untouched: no
   * instruction creates or removes the root.
   */
  lemma NewDocumentsValid(docs: Store, xs: seq<Instruction>, rev: nat)
    requires WellFormed(docs) && Ordered(docs, rev)
    ensures WellFormed(ApplyAll(docs, xs, rev)) && Ordered(ApplyAll(docs, xs, rev), rev + 1)
    ensures ExistenceLog(ApplyAll(docs, xs, rev), Root) == ExistenceLog(docs, Root)
  {
    ApplyAllOrdered(docs, xs, rev);
    ApplyAllShape(docs, xs, rev, Root, "");
    ExistenceEntriesLast(xs, Root, rev);
    assert forall i :: 0 <= i < |xs| ==> !WritesExistence(xs[i], Root);
    assert ExistenceLog(docs, Root) + [] == ExistenceLog(docs, Root);
  }

  /** The initial documents are ordered below revision 1. */
  lemma InitialOrdered()
    ensures Ordered(map[Root := RootDocument], 1)
  {
    var docs := map[Root := RootDocument];
    forall p
      ensures ExistenceOrdered(docs, 1, p)
    {
      assert ExistenceLog(docs, p) == if p == Root then [Entry(0, true)] else [];
    }
    forall p, key
      ensures PropertyOrdered(docs, 1, p, key)
    {
      assert PropertyLogAt(docs, p, key) == [];
    }
  }

  /** The root node exists at every revision. */
  lemma RootAlwaysExists(docs: Store, history: History, r: nat)
    requires ExistenceLog(docs, Root) == [Entry(0, true)] && 0 in history
    ensures ResolveIn(docs, history, Root, r).Some?
  {
    assert LastQualifying(ExistenceLog(docs, Root), history.Keys, r) == Some(0);
  }
}
