/**
 * Revision-scoped reads of the node store: whether a node exists at a
 * revision, its visible properties and children, and the revision in
 * which it was last written; and what one commit does to each of them.
 */
module Resolution {
  import opened Wrappers
  import opened Paths
  import opened Documents
  import opened Translation

  /** The durable record of one commit; its presence makes the revision visible. */
  datatype CommitRecord = CommitRecord(
    message: string,
    rootPath: Path,
    instructions: seq<Instruction>,
    affectedPaths: set<Path>)

  /** Commit records by revision; its keys are the committed revisions. */
  type History = map<nat, CommitRecord>

  /** A node as read at a revision. */
  datatype NodeState = NodeState(
    revision: Option<nat>,
    properties: map<string, string>,
    children: set<Name>)
  {
    function ChildCount(): nat
    {
      |children|
    }
  }

  /** The node at `p` is alive at `r`. */
  predicate ExistsAt(docs: Store, committed: set<nat>, p: Path, r: nat)
  {
    Visible(ExistenceLog(docs, p), committed, r) == Some(true)
  }

  /** The property keys ever written at `p`. */
  function PropertyKeys(docs: Store, p: Path): set<string>
  {
    if p in docs then docs[p].properties.Keys else {}
  }

  /** The properties of the node at `p` visible at `r`, each with its visible value. */
  function PropertiesAt(docs: Store, committed: set<nat>, p: Path, r: nat): map<string, string>
  {
    map key | key in PropertyKeys(docs, p) && Visible(PropertyLogAt(docs, p, key), committed, r).Some?
      :: Visible(PropertyLogAt(docs, p, key), committed, r).value
  }

  /** `c` is a direct child path of `p`. */
  predicate IsChild(c: Path, p: Path)
  {
    |c| == |p| + 1 && c[..|p|] == p
  }

  /** The names of the children of `p` alive at `r`. */
  function ChildNames(docs: Store, committed: set<nat>, p: Path, r: nat): set<Name>
  {
    set c | c in docs && IsChild(c, p) && ExistsAt(docs, committed, c, r) :: c[|p|]
  }

  /** A name is a child of `p` at `r` iff the node at `p + [name]` is alive at `r`. */
  lemma ChildNamesSpec(docs: Store, committed: set<nat>, p: Path, r: nat, name: Name)
    ensures name in ChildNames(docs, committed, p, r) <==> ExistsAt(docs, committed, p + [name], r)
  {
    var c := p + [name];
    if ExistsAt(docs, committed, c, r) {
      assert c in docs && IsChild(c, p) && c[|p|] == name;
    }
    if name in ChildNames(docs, committed, p, r) {
      var c' :| c' in docs && IsChild(c', p) && ExistsAt(docs, committed, c', r) && c'[|p|] == name;
      assert c' == c;
    }
  }

  /** The newest revision, not after `r`, whose commit reports `p` as affected. */
  function LastAffecting(history: History, p: Path, r: nat): (k: Option<nat>)
    ensures k.None? <==> forall c :: c <= r && c in history ==> p !in history[c].affectedPaths
    ensures k.Some? ==> k.value <= r && k.value in history && p in history[k.value].affectedPaths
    ensures k.Some? ==> forall c :: k.value < c <= r && c in history ==> p !in history[c].affectedPaths
  {
    if r in history && p in history[r].affectedPaths then Some(r)
    else if r == 0 then None
    else LastAffecting(history, p, r - 1)
  }

  /** The node at `p` as read at `r`, or None when it does not exist then. */
  function ResolveIn(docs: Store, history: History, p: Path, r: nat): Option<NodeState>
  {
    if ExistsAt(docs, history.Keys, p, r) then
      Some(NodeState(
        LastAffecting(history, p, r),
        PropertiesAt(docs, history.Keys, p, r),
        ChildNames(docs, history.Keys, p, r)))
    else None
  }

  /**
   * A node read: the node is there iff its existence log shows it alive
   * at `r`; it then carries the newest revision that affected it, every
   * property with a visible value (and that value), and the names of
   * exactly its live children. Each document is read on its own: neither
   * the parent's nor any ancestor's existence plays a part.
   */
  lemma ResolveSpec(docs: Store, history: History, p: Path, r: nat)
    ensures ResolveIn(docs, history, p, r).Some? <==> ExistsAt(docs, history.Keys, p, r)
    ensures ResolveIn(docs, history, p, r).Some? ==>
              ResolveIn(docs, history, p, r).value.revision == LastAffecting(history, p, r)
    ensures ResolveIn(docs, history, p, r).Some? ==>
              forall key :: key in ResolveIn(docs, history, p, r).value.properties <==>
                Visible(PropertyLogAt(docs, p, key), history.Keys, r).Some?
    ensures ResolveIn(docs, history, p, r).Some? ==>
              forall key :: key in ResolveIn(docs, history, p, r).value.properties ==>
                ResolveIn(docs, history, p, r).value.properties[key] == Visible(PropertyLogAt(docs, p, key), history.Keys, r).value
    ensures ResolveIn(docs, history, p, r).Some? ==>
              forall name :: name in ResolveIn(docs, history, p, r).value.children <==>
                ExistsAt(docs, history.Keys, p + [name], r)
  {
    forall key | Visible(PropertyLogAt(docs, p, key), history.Keys, r).Some?
      ensures key in PropertyKeys(docs, p)
    {
    }
    forall name
      ensures name in ChildNames(docs, history.Keys, p, r) <==> ExistsAt(docs, history.Keys, p + [name], r)
    {
      ChildNamesSpec(docs, history.Keys, p, r, name);
    }
  }

  /** Every log entry is older than `bound`, and every log is in revision order. */
  ghost predicate Ordered(docs: Store, bound: nat)
  {
    (forall p :: ExistenceOrdered(docs, bound, p)) && (forall p, key :: PropertyOrdered(docs, bound, p, key))
  }

  /** The existence log at `p` is in revision order and older than `bound`. */
  ghost predicate ExistenceOrdered(docs: Store, bound: nat, p: Path)
  {
    Below(ExistenceLog(docs, p), bound) && Sorted(ExistenceLog(docs, p))
  }

  /** The log of property `key` at `p` is in revision order and older than `bound`. */
  ghost predicate PropertyOrdered(docs: Store, bound: nat, p: Path, key: string)
  {
    Below(PropertyLogAt(docs, p, key), bound) && Sorted(PropertyLogAt(docs, p, key))
  }

  /** A commit at revision `rev` keeps the logs ordered, now below `rev + 1`. */
  lemma ApplyAllOrdered(docs: Store, xs: seq<Instruction>, rev: nat)
    requires WellFormed(docs) && Ordered(docs, rev)
    ensures Ordered(ApplyAll(docs, xs, rev), rev + 1)
  {
    var docs', bound := ApplyAll(docs, xs, rev), rev + 1;
    forall p
      ensures ExistenceOrdered(docs', bound, p)
    {
      assert ExistenceOrdered(docs, rev, p);
      ApplyAllShape(docs, xs, rev, p, "");
      EntriesAtRevision(xs, p, "", rev);
      AppendKeepsOrder(ExistenceLog(docs, p), ExistenceEntries(xs, p, rev), rev);
    }
    forall p, key
      ensures PropertyOrdered(docs', bound, p, key)
    {
      assert PropertyOrdered(docs, rev, p, key);
      ApplyAllShape(docs, xs, rev, p, key);
      EntriesAtRevision(xs, p, key, rev);
      AppendKeepsOrder(PropertyLogAt(docs, p, key), PropertyEntries(xs, p, key, rev), rev);
    }
  }

  /** Before the commit at `rev`, no document holds an entry of that revision. */
  lemma OrderedUnwritten(docs: Store, rev: nat, p: Path)
    requires Ordered(docs, rev) && p in docs
    ensures !WrittenAt(docs[p], rev)
  {
    assert ExistenceOrdered(docs, rev, p);
    forall key | key in docs[p].properties && |docs[p].properties[key]| > 0
      ensures docs[p].properties[key][|docs[p].properties[key]| - 1].rev < rev
    {
      assert PropertyOrdered(docs, rev, p, key);
    }
  }

  /**
   * A commit on ordered documents raises the change counter of every
   * document that existed before it and that it writes by exactly one,
   * leaves the other existing ones as they were, and starts the documents
   * it creates at 0.
   */
  lemma ChangeCountAfterCommit(docs: Store, xs: seq<Instruction>, rev: nat, p: Path)
    requires WellFormed(docs) && Ordered(docs, rev)
    requires p in ApplyAll(docs, xs, rev)
    ensures ApplyAll(docs, xs, rev)[p].changeCount ==
              if p !in docs then 0
              else if WriteCount(xs, p) > 0 then docs[p].changeCount + 1
              else docs[p].changeCount
  {
    if p in docs {
      OrderedUnwritten(docs, rev, p);
    }
    ApplyAllChangeCount(docs, xs, rev, p);
  }

  /**
   * Entries of a revision that is not committed, or that is after `r`,
   * are not seen: the log reads as it did before they were appended and
   * before the revision was marked committed.
   */
  lemma UnseenLog<T>(log: Log<T>, es: Log<T>, rev: nat, committed: set<nat>, committed': set<nat>, r: nat)
    requires Below(log, rev) && AllAt(es, rev) && rev !in committed
    requires committed' == committed || (committed' == committed + {rev} && r < rev)
    ensures Visible(log + es, committed', r) == Visible(log, committed, r)
  {
    VisibleIgnoresUnseen(log, es, rev, committed', r);
    VisibleIgnoresOtherCommit(log, rev, committed, r);
  }

  /** Once its revision is committed, the commit's last entry in a log is what `r >= rev` sees. */
  lemma SeenLog<T>(log: Log<T>, es: Log<T>, rev: nat, committed: set<nat>, r: nat)
    requires Below(log, rev) && AllAt(es, rev) && rev !in committed && rev <= r
    ensures Visible(log + es, committed + {rev}, r) ==
              if es == [] then Visible(log, committed, r) else Some(es[|es| - 1].value)
  {
    if es == [] {
      assert log + es == log;
      VisibleIgnoresOtherCommit(log, rev, committed, r);
    } else {
      VisibleTakesNewest(log, es, rev, committed + {rev}, r);
    }
  }

  /**
   * A commit at `rev` leaves a node's existence unchanged for every read
   * that cannot see `rev` (before `rev`, or while `rev` is not committed);
   * reads at or after `rev` see the commit's last create or remove of the
   * node, and otherwise what they saw before.
   */
  lemma ExistenceAfterCommit(docs: Store, xs: seq<Instruction>, rev: nat, committed: set<nat>, p: Path, r: nat)
    requires WellFormed(docs) && Ordered(docs, rev) && rev !in committed
    ensures ExistsAt(ApplyAll(docs, xs, rev), committed, p, r) == ExistsAt(docs, committed, p, r)
    ensures r < rev ==> ExistsAt(ApplyAll(docs, xs, rev), committed + {rev}, p, r) == ExistsAt(docs, committed, p, r)
    ensures rev <= r ==>
              ExistsAt(ApplyAll(docs, xs, rev), committed + {rev}, p, r) ==
                match LastExistenceWrite(xs, p)
                case Some(created) => created
                case None => ExistsAt(docs, committed, p, r)
  {
    ApplyAllShape(docs, xs, rev, p, "");
    EntriesAtRevision(xs, p, "", rev);
    ExistenceEntriesLast(xs, p, rev);
    var log, es := ExistenceLog(docs, p), ExistenceEntries(xs, p, rev);
    assert ExistenceOrdered(docs, rev, p);
    UnseenLog(log, es, rev, committed, committed, r);
    if r < rev {
      UnseenLog(log, es, rev, committed, committed + {rev}, r);
    } else {
      SeenLog(log, es, rev, committed, r);
    }
  }

  /**
   * The same for one property: reads at or after `rev` see the value the
   * commit last set, and otherwise what they saw before.
   */
  lemma PropertyAfterCommit(docs: Store, xs: seq<Instruction>, rev: nat, committed: set<nat>, p: Path,
                            key: string, r: nat)
    requires WellFormed(docs) && Ordered(docs, rev) && rev !in committed
    ensures Visible(PropertyLogAt(ApplyAll(docs, xs, rev), p, key), committed, r)
              == Visible(PropertyLogAt(docs, p, key), committed, r)
    ensures r < rev ==> Visible(PropertyLogAt(ApplyAll(docs, xs, rev), p, key), committed + {rev}, r)
                          == Visible(PropertyLogAt(docs, p, key), committed, r)
    ensures rev <= r ==>
              Visible(PropertyLogAt(ApplyAll(docs, xs, rev), p, key), committed + {rev}, r) ==
                if key in CommitProperties(xs, p) then Some(CommitProperties(xs, p)[key])
                else Visible(PropertyLogAt(docs, p, key), committed, r)
  {
    ApplyAllShape(docs, xs, rev, p, key);
    EntriesAtRevision(xs, p, key, rev);
    PropertyEntriesLast(xs, p, key, rev);
    var log, es := PropertyLogAt(docs, p, key), PropertyEntries(xs, p, key, rev);
    assert PropertyOrdered(docs, rev, p, key);
    UnseenLog(log, es, rev, committed, committed, r);
    if r < rev {
      UnseenLog(log, es, rev, committed, committed + {rev}, r);
    } else {
      SeenLog(log, es, rev, committed, r);
    }
  }

  /** A key with a visible value has been written at `p`. */
  lemma VisibleKey(docs: Store, committed: set<nat>, p: Path, key: string, r: nat)
    requires Visible(PropertyLogAt(docs, p, key), committed, r).Some?
    ensures key in PropertyKeys(docs, p)
  {
  }

  /**
   * Reads that cannot see `rev` (before it, or while it is not
   * committed) see the same properties as before the commit.
   */
  lemma PropertiesUnseen(docs: Store, xs: seq<Instruction>, rev: nat, committed: set<nat>,
                         committed': set<nat>, p: Path, r: nat)
    requires WellFormed(docs) && Ordered(docs, rev) && rev !in committed
    requires committed' == committed || (committed' == committed + {rev} && r < rev)
    ensures PropertiesAt(ApplyAll(docs, xs, rev), committed', p, r) == PropertiesAt(docs, committed, p, r)
  {
    var docs' := ApplyAll(docs, xs, rev);
    var after, before := PropertiesAt(docs', committed', p, r), PropertiesAt(docs, committed, p, r);
    forall key
      ensures key in after <==> key in before
      ensures key in after ==> after[key] == before[key]
    {
      PropertyAfterCommit(docs, xs, rev, committed, p, key, r);
      if Visible(PropertyLogAt(docs', p, key), committed', r).Some? {
        VisibleKey(docs', committed', p, key, r);
      }
      if Visible(PropertyLogAt(docs, p, key), committed, r).Some? {
        VisibleKey(docs, committed, p, key, r);
      }
    }
  }

  /**
   * Reads at or after a committed `rev` see the old properties merged
   * with the commit's, the commit's value winning for a key both have
   * (last write wins per property, union across properties).
   */
  lemma PropertiesAfterCommit(docs: Store, xs: seq<Instruction>, rev: nat, committed: set<nat>, p: Path, r: nat)
    requires WellFormed(docs) && Ordered(docs, rev) && rev !in committed && rev <= r
    ensures PropertiesAt(ApplyAll(docs, xs, rev), committed + {rev}, p, r)
              == PropertiesAt(docs, committed, p, r) + CommitProperties(xs, p)
  {
    var docs' := ApplyAll(docs, xs, rev);
    var after := PropertiesAt(docs', committed + {rev}, p, r);
    var merged := PropertiesAt(docs, committed, p, r) + CommitProperties(xs, p);
    forall key
      ensures key in after <==> key in merged
      ensures key in after ==> after[key] == merged[key]
    {
      PropertyAfterCommit(docs, xs, rev, committed, p, key, r);
      if Visible(PropertyLogAt(docs', p, key), committed + {rev}, r).Some? {
        VisibleKey(docs', committed + {rev}, p, key, r);
      }
      if Visible(PropertyLogAt(docs, p, key), committed, r).Some? {
        VisibleKey(docs, committed, p, key, r);
      }
    }
  }

  /**
   * Reads that cannot see `rev` see the same children; at or after `rev`
   * a name is a child iff the commit last created that child, or did not
   * touch its existence and it was a child before.
   */
  lemma ChildrenAfterCommit(docs: Store, xs: seq<Instruction>, rev: nat, committed: set<nat>, p: Path, r: nat)
    requires WellFormed(docs) && Ordered(docs, rev) && rev !in committed
    ensures ChildNames(ApplyAll(docs, xs, rev), committed, p, r) == ChildNames(docs, committed, p, r)
    ensures r < rev ==> ChildNames(ApplyAll(docs, xs, rev), committed + {rev}, p, r) == ChildNames(docs, committed, p, r)
    ensures rev <= r ==>
              forall name :: name in ChildNames(ApplyAll(docs, xs, rev), committed + {rev}, p, r) <==>
                match LastExistenceWrite(xs, p + [name])
                case Some(created) => created
                case None => name in ChildNames(docs, committed, p, r)
  {
    var docs' := ApplyAll(docs, xs, rev);
    forall name: Name
      ensures name in ChildNames(docs', committed, p, r) <==> name in ChildNames(docs, committed, p, r)
      ensures r < rev ==> (name in ChildNames(docs', committed + {rev}, p, r) <==> name in ChildNames(docs, committed, p, r))
      ensures rev <= r ==> (name in ChildNames(docs', committed + {rev}, p, r) <==>
                match LastExistenceWrite(xs, p + [name])
                case Some(created) => created
                case None => name in ChildNames(docs, committed, p, r))
    {
      ChildNamesSpec(docs', committed, p, r, name);
      ChildNamesSpec(docs', committed + {rev}, p, r, name);
      ChildNamesSpec(docs, committed, p, r, name);
      ExistenceAfterCommit(docs, xs, rev, committed, p + [name], r);
    }
  }

  /**
   * Recording a commit at `rev` leaves the node revision of reads before
   * `rev` alone; at or after `rev`, a node's revision becomes `rev` iff the
   * commit reports it affected, and is unchanged otherwise.
   */
  lemma {:induction false} RevisionAfterCommit(history: History, rec: CommitRecord, rev: nat, p: Path, r: nat)
    requires forall c :: c in history ==> c < rev
    ensures r < rev ==> LastAffecting(history[rev := rec], p, r) == LastAffecting(history, p, r)
    ensures rev <= r ==>
              LastAffecting(history[rev := rec], p, r) ==
                if p in rec.affectedPaths then Some(rev) else LastAffecting(history, p, r)
  {
    if r > 0 {
      RevisionAfterCommit(history, rec, rev, p, r - 1);
    }
  }

  /**
   * A read that cannot see `rev` resolves every node as it did before the
   * commit: the commit is invisible while its record is not written (or
   * if it never is), and to every read of an older revision.
   */
  lemma ResolveUnseen(docs: Store, history: History, xs: seq<Instruction>, rev: nat,
                      recorded: bool, rec: CommitRecord, p: Path, r: nat)
    requires WellFormed(docs) && Ordered(docs, rev)
    requires forall c :: c in history ==> c < rev
    requires recorded ==> r < rev
    ensures ResolveIn(ApplyAll(docs, xs, rev), if recorded then history[rev := rec] else history, p, r)
              == ResolveIn(docs, history, p, r)
  {
    var history' := if recorded then history[rev := rec] else history;
    var committed' := if recorded then history.Keys + {rev} else history.Keys;
    assert history'.Keys == committed';
    ExistenceAfterCommit(docs, xs, rev, history.Keys, p, r);
    PropertiesUnseen(docs, xs, rev, history.Keys, committed', p, r);
    ChildrenAfterCommit(docs, xs, rev, history.Keys, p, r);
    RevisionAfterCommit(history, rec, rev, p, r);
  }
}
