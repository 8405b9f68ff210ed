/**
 * The per-path document of the revisioned node store: an existence log
 * and one log per property, each an append-only sequence of
 * revision-tagged entries, plus a change counter; and the visibility rule
 * that reads a log at a revision.
 */
module Documents {
  import opened Wrappers
  import opened Paths

  datatype Entry<T> = Entry(rev: nat, value: T)

  type Log<T> = seq<Entry<T>>

  datatype Document = Document(
    path: Path,
    existence: Log<bool>,
    properties: map<string, Log<string>>,
    changeCount: nat)

  function EmptyDocument(p: Path): Document
  {
    Document(p, [], map[], 0)
  }

  /** The log of one property; a property never written has the empty log. */
  function PropertyLog(d: Document, name: string): Log<string>
  {
    if name in d.properties then d.properties[name] else []
  }

  /** An entry can be seen at `r`: written at or before `r` by a committed revision. */
  predicate Qualifies<T>(e: Entry<T>, committed: set<nat>, r: nat)
  {
    e.rev <= r && e.rev in committed
  }

  /** Revisions never decrease along a log. */
  predicate Sorted<T>(log: Log<T>)
  {
    forall i, j :: 0 <= i < j < |log| ==> log[i].rev <= log[j].rev
  }

  /** Every entry of the log is older than `bound`. */
  predicate Below<T>(log: Log<T>, bound: nat)
  {
    forall i :: 0 <= i < |log| ==> log[i].rev < bound
  }

  /** Position of the last entry that can be seen at `r`. */
  function LastQualifying<T>(log: Log<T>, committed: set<nat>, r: nat): (k: Option<nat>)
    ensures k.None? <==> forall i :: 0 <= i < |log| ==> !Qualifies(log[i], committed, r)
    ensures k.Some? ==> k.value < |log| && Qualifies(log[k.value], committed, r)
    ensures k.Some? ==> forall j :: k.value < j < |log| ==> !Qualifies(log[j], committed, r)
  {
    if log == [] then None
    else if Qualifies(log[|log| - 1], committed, r) then Some(|log| - 1)
    else LastQualifying(log[..|log| - 1], committed, r)
  }

  /** The value of the visible entry at `r`, or None when nothing is visible. */
  function Visible<T>(log: Log<T>, committed: set<nat>, r: nat): Option<T>
  {
    match LastQualifying(log, committed, r)
    case None => None
    case Some(k) => Some(log[k].value)
  }

  /**
   * On a sorted log the visible entry is the one with the greatest
   * committed revision not after `r`.
   */
  lemma VisibleIsGreatest<T>(log: Log<T>, committed: set<nat>, r: nat)
    requires Sorted(log)
    ensures Visible(log, committed, r).None? <==>
              forall i :: 0 <= i < |log| ==> !Qualifies(log[i], committed, r)
    ensures Visible(log, committed, r).Some? ==>
              exists k :: 0 <= k < |log| && Qualifies(log[k], committed, r)
                && log[k].value == Visible(log, committed, r).value
                && forall j :: 0 <= j < |log| && Qualifies(log[j], committed, r) ==> log[j].rev <= log[k].rev
  {
    var q := LastQualifying(log, committed, r);
    if q.Some? {
      var k := q.value;
      forall j | 0 <= j < |log| && Qualifies(log[j], committed, r)
        ensures log[j].rev <= log[k].rev
      {
      }
      assert 0 <= k < |log| && Qualifies(log[k], committed, r);
    }
  }

  /** Entries that all carry revision `rev`. */
  predicate AllAt<T>(es: Log<T>, rev: nat)
  {
    forall i :: 0 <= i < |es| ==> es[i].rev == rev
  }

  /** Appending entries of revision `rev` to an ordered log older than `rev` keeps it ordered, now older than `rev + 1`. */
  lemma AppendKeepsOrder<T>(log: Log<T>, es: Log<T>, rev: nat)
    requires Below(log, rev) && Sorted(log) && AllAt(es, rev)
    ensures Below(log + es, rev + 1) && Sorted(log + es)
  {
    var log' := log + es;
    forall i, j | 0 <= i < j < |log'|
      ensures log'[i].rev <= log'[j].rev
    {
      if j >= |log| {
        assert log'[j] == es[j - |log|];
        if i < |log| {
          assert log'[i] == log[i];
        } else {
          assert log'[i] == es[i - |log|];
        }
      }
    }
  }

  /** Entries of a revision that cannot be seen at `r` leave the visible value alone. */
  lemma {:induction false} VisibleIgnoresUnseen<T>(log: Log<T>, es: Log<T>, rev: nat, committed: set<nat>, r: nat)
    requires AllAt(es, rev)
    requires rev > r || rev !in committed
    ensures Visible(log + es, committed, r) == Visible(log, committed, r)
    decreases |es|
  {
    if es != [] {
      var es' := es[..|es| - 1];
      assert (log + es)[..|log + es| - 1] == log + es';
      VisibleIgnoresUnseen(log, es', rev, committed, r);
    } else {
      assert log + es == log;
    }
  }

  /** Entries of a revision seen at `r` make the last of them visible. */
  lemma VisibleTakesNewest<T>(log: Log<T>, es: Log<T>, rev: nat, committed: set<nat>, r: nat)
    requires AllAt(es, rev) && es != []
    requires rev <= r && rev in committed
    ensures Visible(log + es, committed, r) == Some(es[|es| - 1].value)
  {
    assert (log + es)[|log + es| - 1] == es[|es| - 1];
  }

  /** Committing a revision that the log does not mention changes nothing it shows. */
  lemma {:induction false} VisibleIgnoresOtherCommit<T>(log: Log<T>, rev: nat, committed: set<nat>, r: nat)
    requires forall i :: 0 <= i < |log| ==> log[i].rev != rev
    ensures Visible(log, committed + {rev}, r) == Visible(log, committed, r)
    decreases |log|
  {
    if log != [] {
      VisibleIgnoresOtherCommit(log[..|log| - 1], rev, committed, r);
    }
  }
}
