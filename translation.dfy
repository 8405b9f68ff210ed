/**
 * Translation of a commit's instruction list into per-document log
 * appends, all tagged with the commit's revision, and the commit's
 * affected-path set.
 */
module Translation {
  import opened Wrappers
  import opened Paths
  import opened Documents

  datatype Instruction =
    | AddNode(parentPath: Path, name: Name)
    | RemoveNode(parentPath: Path, name: Name)
    | AddProperty(path: Path, key: string, value: string)

  /** The path whose document the instruction writes. */
  function Target(x: Instruction): Path
  {
    match x
    case AddNode(parent, name) => parent + [name]
    case RemoveNode(parent, name) => parent + [name]
    case AddProperty(path, _, _) => path
  }

  /**
   * The path the instruction reports as affected: the new node, the
   * parent of a removed node, or the node whose property is written.
   */
  function Touched(x: Instruction): Path
  {
    match x
    case AddNode(parent, name) => parent + [name]
    case RemoveNode(parent, _) => parent
    case AddProperty(path, _, _) => path
  }

  /**
   * The document collection. Documents are addressed by path; the store
   * proper keys them by `DocId(path)`, which is injective
   * (`Paths.DocIdInjective`), so the two addressings are the same map.
   */
  type Store = map<Path, Document>

  /** Every document sits under its own path. */
  predicate WellFormed(docs: Store)
  {
    forall p :: p in docs ==> docs[p].path == p
  }

  /** The existence log at a path; a missing document has the empty log. */
  function ExistenceLog(docs: Store, p: Path): Log<bool>
  {
    if p in docs then docs[p].existence else []
  }

  /** One property's log at a path. */
  function PropertyLogAt(docs: Store, p: Path, key: string): Log<string>
  {
    if p in docs then PropertyLog(docs[p], key) else []
  }

  /** Appends the instruction's entry to the log it writes in `d`. */
  function Append(d: Document, x: Instruction, rev: nat): Document
  {
    match x
    case AddNode(_, _) => d.(existence := d.existence + [Entry(rev, true)])
    case RemoveNode(_, _) => d.(existence := d.existence + [Entry(rev, false)])
    case AddProperty(_, key, value) =>
      d.(properties := d.properties[key := PropertyLog(d, key) + [Entry(rev, value)]])
  }

  /**
   * The commit at `rev` has already written the document: one of its
   * logs ends in an entry of that revision.
   */
  predicate WrittenAt(d: Document, rev: nat)
  {
    (|d.existence| > 0 && d.existence[|d.existence| - 1].rev == rev) ||
    exists key :: key in d.properties && |d.properties[key]| > 0 && d.properties[key][|d.properties[key]| - 1].rev == rev
  }

  /** After an append, the document is written at the appended revision. */
  lemma AppendWrites(d: Document, x: Instruction, rev: nat)
    ensures WrittenAt(Append(d, x, rev), rev)
  {
    if x.AddProperty? {
      var log := Append(d, x, rev).properties[x.key];
      assert log[|log| - 1].rev == rev;
    }
  }

  /**
   * Appends one instruction's entry to its document, creating the
   * document on first write. The change counter of a document that
   * existed before the commit goes up once per commit, on the commit's
   * first write to it; a document the commit creates starts at 0.
   */
  function Apply(docs: Store, x: Instruction, rev: nat): Store
  {
    var p := Target(x);
    var d := if p in docs then docs[p] else EmptyDocument(p);
    var bump := if p in docs && !WrittenAt(d, rev) then 1 else 0;
    docs[p := Append(d, x, rev).(changeCount := d.changeCount + bump)]
  }

  /** Applies the instructions in list order. */
  function ApplyAll(docs: Store, xs: seq<Instruction>, rev: nat): Store
  {
    if xs == [] then docs else Apply(ApplyAll(docs, xs[..|xs| - 1], rev), xs[|xs| - 1], rev)
  }

  /** The existence entries a commit appends at `p`, in list order. */
  function ExistenceEntries(xs: seq<Instruction>, p: Path, rev: nat): Log<bool>
  {
    if xs == [] then []
    else
      var x := xs[|xs| - 1];
      ExistenceEntries(xs[..|xs| - 1], p, rev) + ExistenceStep(x, p, rev)
  }

  /** The entries a commit appends to property `key` at `p`, in list order. */
  function PropertyEntries(xs: seq<Instruction>, p: Path, key: string, rev: nat): Log<string>
  {
    if xs == [] then []
    else
      var x := xs[|xs| - 1];
      PropertyEntries(xs[..|xs| - 1], p, key, rev) + PropertyStep(x, p, key, rev)
  }

  /** How many instructions of the list write the document at `p`. */
  function WriteCount(xs: seq<Instruction>, p: Path): nat
  {
    if xs == [] then 0
    else WriteCount(xs[..|xs| - 1], p) + if Target(xs[|xs| - 1]) == p then 1 else 0
  }

  lemma EntriesAtRevision(xs: seq<Instruction>, p: Path, key: string, rev: nat)
    ensures AllAt(ExistenceEntries(xs, p, rev), rev)
    ensures AllAt(PropertyEntries(xs, p, key, rev), rev)
  {
  }

  /** The existence entry one instruction appends at `p`, if any. */
  function ExistenceStep(x: Instruction, p: Path, rev: nat): Log<bool>
  {
    if !x.AddProperty? && Target(x) == p then [Entry(rev, x.AddNode?)] else []
  }

  /** The entry one instruction appends to property `key` at `p`, if any. */
  function PropertyStep(x: Instruction, p: Path, key: string, rev: nat): Log<string>
  {
    if x.AddProperty? && x.path == p && x.key == key then [Entry(rev, x.value)] else []
  }

  /** One instruction changes only its own document, by one entry. */
  lemma ApplyShape(docs: Store, x: Instruction, rev: nat, p: Path, key: string)
    requires WellFormed(docs)
    ensures WellFormed(Apply(docs, x, rev))
    ensures p in Apply(docs, x, rev) <==> p in docs || Target(x) == p
    ensures ExistenceLog(Apply(docs, x, rev), p) == ExistenceLog(docs, p) + ExistenceStep(x, p, rev)
    ensures PropertyLogAt(Apply(docs, x, rev), p, key) == PropertyLogAt(docs, p, key) + PropertyStep(x, p, key, rev)
    ensures p in Apply(docs, x, rev) ==>
              Apply(docs, x, rev)[p].changeCount ==
                if Target(x) != p then docs[p].changeCount
                else if p in docs && !WrittenAt(docs[p], rev) then docs[p].changeCount + 1
                else if p in docs then docs[p].changeCount
                else 0
    ensures p in Apply(docs, x, rev) ==>
              (WrittenAt(Apply(docs, x, rev)[p], rev) <==> Target(x) == p || WrittenAt(docs[p], rev))
  {
    if Target(x) == p {
      AppendWrites(if p in docs then docs[p] else EmptyDocument(p), x, rev);
    }
  }

  /**
   * After a commit, the document at every path holds its old logs with
   * this commit's entries appended, and is present iff it was or some
   * instruction targets it.
   */
  lemma {:induction false} ApplyAllShape(docs: Store, xs: seq<Instruction>, rev: nat, p: Path, key: string)
    requires WellFormed(docs)
    ensures WellFormed(ApplyAll(docs, xs, rev))
    ensures p in ApplyAll(docs, xs, rev) <==> p in docs || WriteCount(xs, p) > 0
    ensures ExistenceLog(ApplyAll(docs, xs, rev), p) == ExistenceLog(docs, p) + ExistenceEntries(xs, p, rev)
    ensures PropertyLogAt(ApplyAll(docs, xs, rev), p, key)
              == PropertyLogAt(docs, p, key) + PropertyEntries(xs, p, key, rev)
  {
    ApplyAllPresence(docs, xs, rev, p);
    ApplyAllExistence(docs, xs, rev, p);
    ApplyAllProperty(docs, xs, rev, p, key);
  }

  /** A commit keeps the store well formed; a path is present iff it was or is written. */
  lemma {:induction false} ApplyAllPresence(docs: Store, xs: seq<Instruction>, rev: nat, p: Path)
    requires WellFormed(docs)
    ensures WellFormed(ApplyAll(docs, xs, rev))
    ensures p in ApplyAll(docs, xs, rev) <==> p in docs || WriteCount(xs, p) > 0
  {
    if xs != [] {
      var init, x := xs[..|xs| - 1], xs[|xs| - 1];
      var before := ApplyAll(docs, init, rev);
      assert ApplyAll(docs, xs, rev) == Apply(before, x, rev);
      ApplyAllPresence(docs, init, rev, p);
      ApplyShape(before, x, rev, p, "");
      EntriesStep(xs, p, "", rev);
    }
  }

  /** A commit appends its existence entries for `p` to the old existence log. */
  lemma {:induction false} ApplyAllExistence(docs: Store, xs: seq<Instruction>, rev: nat, p: Path)
    requires WellFormed(docs)
    ensures ExistenceLog(ApplyAll(docs, xs, rev), p) == ExistenceLog(docs, p) + ExistenceEntries(xs, p, rev)
  {
    if xs != [] {
      var init, x := xs[..|xs| - 1], xs[|xs| - 1];
      var before := ApplyAll(docs, init, rev);
      assert ApplyAll(docs, xs, rev) == Apply(before, x, rev);
      ApplyAllPresence(docs, init, rev, p);
      ApplyAllExistence(docs, init, rev, p);
      ApplyShape(before, x, rev, p, "");
      EntriesStep(xs, p, "", rev);
    }
  }

  /** A commit appends its entries for property `key` of `p` to the old log. */
  lemma {:induction false} ApplyAllProperty(docs: Store, xs: seq<Instruction>, rev: nat, p: Path, key: string)
    requires WellFormed(docs)
    ensures PropertyLogAt(ApplyAll(docs, xs, rev), p, key)
              == PropertyLogAt(docs, p, key) + PropertyEntries(xs, p, key, rev)
  {
    if xs != [] {
      var init, x := xs[..|xs| - 1], xs[|xs| - 1];
      var before := ApplyAll(docs, init, rev);
      assert ApplyAll(docs, xs, rev) == Apply(before, x, rev);
      ApplyAllPresence(docs, init, rev, p);
      ApplyAllProperty(docs, init, rev, p, key);
      ApplyShape(before, x, rev, p, key);
      EntriesStep(xs, p, key, rev);
    }
  }


  /** The entries of a commit are those of all but its last instruction followed by the last one's. */
  lemma EntriesStep(xs: seq<Instruction>, p: Path, key: string, rev: nat)
    requires xs != []
    ensures ExistenceEntries(xs, p, rev) == ExistenceEntries(xs[..|xs| - 1], p, rev) + ExistenceStep(xs[|xs| - 1], p, rev)
    ensures PropertyEntries(xs, p, key, rev) == PropertyEntries(xs[..|xs| - 1], p, key, rev) + PropertyStep(xs[|xs| - 1], p, key, rev)
    ensures WriteCount(xs, p) > 0 <==> WriteCount(xs[..|xs| - 1], p) > 0 || Target(xs[|xs| - 1]) == p
  {
  }

  /**
   * A commit bumps the change counter of a document that existed before
   * it by one if it writes the document at all, however many of its
   * instructions do; a document the commit creates has counter 0.
   */
  lemma {:induction false} ApplyAllChangeCount(docs: Store, xs: seq<Instruction>, rev: nat, p: Path)
    requires WellFormed(docs)
    requires p in docs ==> !WrittenAt(docs[p], rev)
    ensures p in ApplyAll(docs, xs, rev) ==>
              ApplyAll(docs, xs, rev)[p].changeCount ==
                if p !in docs then 0
                else if WriteCount(xs, p) > 0 then docs[p].changeCount + 1
                else docs[p].changeCount
    ensures p in ApplyAll(docs, xs, rev) ==> (WrittenAt(ApplyAll(docs, xs, rev)[p], rev) <==> WriteCount(xs, p) > 0)
  {
    if xs != [] {
      var init, x := xs[..|xs| - 1], xs[|xs| - 1];
      var before := ApplyAll(docs, init, rev);
      assert ApplyAll(docs, xs, rev) == Apply(before, x, rev);
      ApplyAllChangeCount(docs, init, rev, p);
      ApplyAllPresence(docs, init, rev, p);
      ApplyShape(before, x, rev, p, "");
      EntriesStep(xs, p, "", rev);
    }
  }

  /** A document no instruction targets is left exactly as it was. */
  lemma {:induction false} ApplyAllFrame(docs: Store, xs: seq<Instruction>, rev: nat, p: Path)
    requires forall i :: 0 <= i < |xs| ==> Target(xs[i]) != p
    ensures p in ApplyAll(docs, xs, rev) <==> p in docs
    ensures p in docs ==> ApplyAll(docs, xs, rev)[p] == docs[p]
  {
    if xs != [] {
      ApplyAllFrame(docs, xs[..|xs| - 1], rev, p);
    }
  }

  /** Two instructions append to the same log. */
  predicate SameLog(a: Instruction, b: Instruction)
  {
    Target(a) == Target(b) && a.AddProperty? == b.AddProperty? && (a.AddProperty? ==> a.key == b.key)
  }

  /** Appends to different logs of one document commute. */
  lemma AppendCommutes(d: Document, a: Instruction, b: Instruction, rev: nat)
    requires !SameLog(a, b) && Target(a) == Target(b)
    ensures Append(Append(d, a, rev), b, rev) == Append(Append(d, b, rev), a, rev)
  {
    if a.AddProperty? && b.AddProperty? {
      assert a.key != b.key;
      assert PropertyLog(Append(d, a, rev), b.key) == PropertyLog(d, b.key);
      assert PropertyLog(Append(d, b, rev), a.key) == PropertyLog(d, a.key);
    }
  }

  /** Two instructions on one document: both entries land in it and its counter moves by the writes to an existing document. */
  lemma ApplyTwice(docs: Store, a: Instruction, b: Instruction, rev: nat)
    requires Target(a) == Target(b)
    ensures var id := Target(a);
            var d := if id in docs then docs[id] else EmptyDocument(id);
            Apply(Apply(docs, a, rev), b, rev)
              == docs[id := Append(Append(d, a, rev), b, rev).(changeCount := d.changeCount + (if id in docs && !WrittenAt(d, rev) then 1 else 0))]
  {
    var id := Target(a);
    var d := if id in docs then docs[id] else EmptyDocument(id);
    var c := d.changeCount + (if id in docs && !WrittenAt(d, rev) then 1 else 0);
    var d1 := Append(d, a, rev).(changeCount := c);
    assert Apply(docs, a, rev) == docs[id := d1];
    AppendWrites(d, a, rev);
    ApplyWritten(docs, d1, b, rev);
    AppendIgnoresCount(Append(d, a, rev), b, rev, c);
  }

  /** A document the commit has already written takes a further entry without a bump. */
  lemma ApplyWritten(docs: Store, d: Document, x: Instruction, rev: nat)
    requires WrittenAt(d, rev)
    ensures Apply(docs[Target(x) := d], x, rev) == docs[Target(x) := Append(d, x, rev)]
  {
  }

  /** Appending an entry does not look at the change counter. */
  lemma AppendIgnoresCount(d: Document, x: Instruction, rev: nat, c: nat)
    ensures Append(d.(changeCount := c), x, rev) == Append(d, x, rev).(changeCount := c)
  {
  }

  /** Applying an instruction leaves a document it does not target as it is. */
  lemma ApplyBeside(docs: Store, p: Path, d: Document, x: Instruction, rev: nat)
    requires Target(x) != p
    ensures Apply(docs[p := d], x, rev) == Apply(docs, x, rev)[p := d]
  {
    var t := Target(x);
    assert (t in docs[p := d]) == (t in docs);
    assert t in docs ==> docs[p := d][t] == docs[t];
  }

  /** Instructions on two different documents can be applied in either order. */
  lemma ApplyApart(docs: Store, a: Instruction, b: Instruction, rev: nat)
    requires Target(a) != Target(b)
    ensures Apply(Apply(docs, a, rev), b, rev) == Apply(Apply(docs, b, rev), a, rev)
  {
    var ta, tb := Target(a), Target(b);
    var na := Apply(docs, a, rev)[ta];
    var nb := Apply(docs, b, rev)[tb];
    assert Apply(docs, a, rev) == docs[ta := na];
    assert Apply(docs, b, rev) == docs[tb := nb];
    ApplyBeside(docs, ta, na, b, rev);
    ApplyBeside(docs, tb, nb, a, rev);
    assert docs[ta := na][tb := nb] == docs[tb := nb][ta := na];
  }


  /** Instructions that append to different logs can be applied in either order. */
  lemma ApplyCommutes(docs: Store, a: Instruction, b: Instruction, rev: nat)
    requires !SameLog(a, b)
    ensures Apply(Apply(docs, a, rev), b, rev) == Apply(Apply(docs, b, rev), a, rev)
  {
    if Target(a) == Target(b) {
      var d := if Target(a) in docs then docs[Target(a)] else EmptyDocument(Target(a));
      AppendCommutes(d, a, b, rev);
      ApplyTwice(docs, a, b, rev);
      ApplyTwice(docs, b, a, rev);
    } else {
      ApplyApart(docs, a, b, rev);
    }
  }

  lemma {:induction false} ApplyAllAppend(docs: Store, xs: seq<Instruction>, ys: seq<Instruction>, rev: nat)
    ensures ApplyAll(docs, xs + ys, rev) == ApplyAll(ApplyAll(docs, xs, rev), ys, rev)
    decreases |ys|
  {
    if ys == [] {
      assert xs + ys == xs;
    } else {
      var ys' := ys[..|ys| - 1];
      assert (xs + ys)[..|xs + ys| - 1] == xs + ys';
      ApplyAllAppend(docs, xs, ys', rev);
    }
  }

  /**
   * Swapping two neighbouring instructions that append to different logs
   * gives the same documents: a property written before the node's
   * creation in the list lands exactly as it does after it.
   */
  lemma ApplyAllSwap(docs: Store, xs: seq<Instruction>, a: Instruction, b: Instruction,
                     ys: seq<Instruction>, rev: nat)
    requires !SameLog(a, b)
    ensures ApplyAll(docs, xs + [a, b] + ys, rev) == ApplyAll(docs, xs + [b, a] + ys, rev)
  {
    var before := ApplyAll(docs, xs, rev);
    ApplyAllAppend(docs, xs + [a, b], ys, rev);
    ApplyAllAppend(docs, xs + [b, a], ys, rev);
    ApplyAllAppend(docs, xs, [a, b], rev);
    ApplyAllAppend(docs, xs, [b, a], rev);
    assert [a, b][..1] == [a] && [b, a][..1] == [b];
    assert [a][..0] == [] && [b][..0] == [];
    assert ApplyAll(before, [a], rev) == Apply(before, a, rev);
    assert ApplyAll(before, [b], rev) == Apply(before, b, rev);
    assert ApplyAll(before, [a, b], rev) == Apply(Apply(before, a, rev), b, rev);
    assert ApplyAll(before, [b, a], rev) == Apply(Apply(before, b, rev), a, rev);
    ApplyCommutes(before, a, b, rev);
  }

  /** The instruction creates or removes the node at `p`. */
  predicate WritesExistence(x: Instruction, p: Path)
  {
    !x.AddProperty? && Target(x) == p
  }

  /** The instruction sets property `key` of the node at `p`. */
  predicate WritesProperty(x: Instruction, p: Path, key: string)
  {
    x.AddProperty? && x.path == p && x.key == key
  }

  /**
   * Whether the last instruction creating or removing the node at `p`
   * creates it; None when the commit does neither.
   */
  function LastExistenceWrite(xs: seq<Instruction>, p: Path): (w: Option<bool>)
    ensures w.None? <==> forall i :: 0 <= i < |xs| ==> !WritesExistence(xs[i], p)
    ensures w.Some? ==> exists i :: 0 <= i < |xs| && WritesExistence(xs[i], p) && w.value == xs[i].AddNode?
                          && forall j :: i < j < |xs| ==> !WritesExistence(xs[j], p)
  {
    if xs == [] then None
    else
      var init, x := xs[..|xs| - 1], xs[|xs| - 1];
      if WritesExistence(x, p) then Some(x.AddNode?)
      else
        var w := LastExistenceWrite(init, p);
        LastExistenceWriteExtends(xs, p, w);
        w
  }

  /** A last existence write of all but the final instruction stays the last one when that instruction writes no existence. */
  lemma LastExistenceWriteExtends(xs: seq<Instruction>, p: Path, w: Option<bool>)
    requires xs != [] && !WritesExistence(xs[|xs| - 1], p)
    requires var init := xs[..|xs| - 1];
             (w.None? <==> forall i :: 0 <= i < |init| ==> !WritesExistence(init[i], p))
             && (w.Some? ==> exists i :: 0 <= i < |init| && WritesExistence(init[i], p) && w.value == init[i].AddNode?
                               && forall j :: i < j < |init| ==> !WritesExistence(init[j], p))
    ensures w.None? <==> forall i :: 0 <= i < |xs| ==> !WritesExistence(xs[i], p)
    ensures w.Some? ==> exists i :: 0 <= i < |xs| && WritesExistence(xs[i], p) && w.value == xs[i].AddNode?
                          && forall j :: i < j < |xs| ==> !WritesExistence(xs[j], p)
  {
    var init := xs[..|xs| - 1];
    assert forall i :: 0 <= i < |init| ==> init[i] == xs[i];
    if w.Some? {
      var i :| 0 <= i < |init| && WritesExistence(init[i], p) && w.value == init[i].AddNode?
               && forall j :: i < j < |init| ==> !WritesExistence(init[j], p);
      assert WritesExistence(xs[i], p) && w.value == xs[i].AddNode?;
      forall j | i < j < |xs|
        ensures !WritesExistence(xs[j], p)
      {
        if j < |init| {
          assert init[j] == xs[j];
        }
      }
    }
  }
  /** An instruction that does not write the existence of `p` leaves the last such write as it was. */
  lemma LastExistenceWriteSkips(xs: seq<Instruction>, x: Instruction, p: Path)
    requires !WritesExistence(x, p)
    ensures LastExistenceWrite(xs + [x], p) == LastExistenceWrite(xs, p)
  {
    assert (xs + [x])[..|xs|] == xs;
  }

  /** A single instruction is the last existence write of `p` exactly when it writes it. */
  lemma LastExistenceWriteSingle(x: Instruction, p: Path)
    ensures LastExistenceWrite([x], p) == if WritesExistence(x, p) then Some(x.AddNode?) else None
  {
    assert [x][..0] == [];
  }


  /**
   * The properties a commit sets at `p`: every key written, with the
   * value of its last write (`CommitPropertiesSpec`).
   */
  function CommitProperties(xs: seq<Instruction>, p: Path): map<string, string>
  {
    if xs == [] then map[]
    else
      var x := xs[|xs| - 1];
      var m := CommitProperties(xs[..|xs| - 1], p);
      if x.AddProperty? && x.path == p then m[x.key := x.value] else m
  }

  lemma {:induction false} CommitPropertiesSpec(xs: seq<Instruction>, p: Path, key: string)
    ensures key in CommitProperties(xs, p) <==> exists i :: 0 <= i < |xs| && WritesProperty(xs[i], p, key)
    ensures key in CommitProperties(xs, p) ==>
              exists i :: 0 <= i < |xs| && WritesProperty(xs[i], p, key) && CommitProperties(xs, p)[key] == xs[i].value
                && forall j :: i < j < |xs| ==> !WritesProperty(xs[j], p, key)
  {
    if xs != [] {
      var init, x := xs[..|xs| - 1], xs[|xs| - 1];
      CommitPropertiesSpec(init, p, key);
      assert forall i :: 0 <= i < |init| ==> init[i] == xs[i];
      if !WritesProperty(x, p, key) && key in CommitProperties(xs, p) {
        var i :| 0 <= i < |init| && WritesProperty(init[i], p, key) && CommitProperties(init, p)[key] == init[i].value
                 && forall j :: i < j < |init| ==> !WritesProperty(init[j], p, key);
        assert forall j :: i < j < |xs| ==> !WritesProperty(xs[j], p, key);
      }
    }
  }

  /** The existence entries of a commit end with its last existence write. */
  lemma {:induction false} ExistenceEntriesLast(xs: seq<Instruction>, p: Path, rev: nat)
    ensures LastExistenceWrite(xs, p).None? <==> ExistenceEntries(xs, p, rev) == []
    ensures LastExistenceWrite(xs, p).Some? ==>
              ExistenceEntries(xs, p, rev)[|ExistenceEntries(xs, p, rev)| - 1].value == LastExistenceWrite(xs, p).value
  {
    if xs != [] {
      ExistenceEntriesLast(xs[..|xs| - 1], p, rev);
    }
  }

  /** The entries of one property end with the value the commit leaves it. */
  lemma {:induction false} PropertyEntriesLast(xs: seq<Instruction>, p: Path, key: string, rev: nat)
    ensures key !in CommitProperties(xs, p) <==> PropertyEntries(xs, p, key, rev) == []
    ensures key in CommitProperties(xs, p) ==>
              PropertyEntries(xs, p, key, rev)[|PropertyEntries(xs, p, key, rev)| - 1].value
                == CommitProperties(xs, p)[key]
  {
    if xs != [] {
      PropertyEntriesLast(xs[..|xs| - 1], p, key, rev);
    }
  }

  /** `t` and its ancestors, walking up until the commit root or the tree root. */
  function UpTo(root: Path, t: Path): set<Path>
    decreases |t|
  {
    if t == root || t == [] then {t} else {t} + UpTo(root, t[..|t| - 1])
  }

  /**
   * Under the commit root, the walk gives exactly the ancestors of `t`
   * (with `t`) that lie at or below the root.
   */
  lemma {:induction false} UpToSpec(root: Path, t: Path, q: Path)
    requires IsPrefix(root, t)
    ensures q in UpTo(root, t) <==> IsPrefix(q, t) && IsPrefix(root, q)
    decreases |t|
  {
    if t != root && t != [] {
      var up := t[..|t| - 1];
      assert |root| < |t|;
      assert IsPrefix(root, up) by { assert up[..|root|] == t[..|root|]; }
      UpToSpec(root, up, q);
      if IsPrefix(q, t) && q != t {
        assert q == up[..|q|];
      }
      if IsPrefix(q, up) {
        assert t[..|q|] == up[..|q|];
      }
    }
  }

  /** Every instruction's touched path with its ancestors up to the commit root. */
  function AffectedPaths(root: Path, xs: seq<Instruction>): set<Path>
  {
    if xs == [] then {} else AffectedPaths(root, xs[..|xs| - 1]) + UpTo(root, Touched(xs[|xs| - 1]))
  }

  /**
   * A path is affected iff it is, for some instruction under the commit
   * root, the touched path or one of its ancestors at or below the root.
   */
  lemma {:induction false} AffectedPathsSpec(root: Path, xs: seq<Instruction>, q: Path)
    requires forall i :: 0 <= i < |xs| ==> IsPrefix(root, Touched(xs[i]))
    ensures q in AffectedPaths(root, xs) <==>
              exists i :: 0 <= i < |xs| && IsPrefix(q, Touched(xs[i])) && IsPrefix(root, q)
  {
    if xs != [] {
      var init := xs[..|xs| - 1];
      AffectedPathsSpec(root, init, q);
      UpToSpec(root, Touched(xs[|xs| - 1]), q);
      if exists i :: 0 <= i < |xs| && IsPrefix(q, Touched(xs[i])) && IsPrefix(root, q) {
        var i :| 0 <= i < |xs| && IsPrefix(q, Touched(xs[i])) && IsPrefix(root, q);
        if i < |init| {
          assert init[i] == xs[i];
        }
      }
    }
  }

  /** One level below a path at or below the commit root, the walk adds just the new path. */
  lemma UpToChild(root: Path, t: Path, n: Name)
    requires IsPrefix(root, t)
    ensures UpTo(root, t + [n]) == {t + [n]} + UpTo(root, t)
  {
    assert (t + [n])[..|t|] == t;
  }

  /** The paths two instruction lists affect together are those each affects. */
  lemma {:induction false} AffectedPathsAppend(root: Path, xs: seq<Instruction>, ys: seq<Instruction>)
    ensures AffectedPaths(root, xs + ys) == AffectedPaths(root, xs) + AffectedPaths(root, ys)
    decreases |ys|
  {
    if ys == [] {
      assert xs + ys == xs;
    } else {
      var init := ys[..|ys| - 1];
      assert (xs + ys)[..|xs + ys| - 1] == xs + init;
      AffectedPathsAppend(root, xs, init);
    }
  }

  /** A single instruction affects its touched path and the ancestors up to the root. */
  lemma AffectedPathsSingle(root: Path, x: Instruction)
    ensures AffectedPaths(root, [x]) == UpTo(root, Touched(x))
  {
    assert [x][..0] == [];
  }

  /** A node added together with a property of it affects the node and its ancestors up to the root. */
  lemma NodeWithPropertyAffected(root: Path, parent: Path, n: Name, t: Path, key: string, value: string)
    requires t == parent + [n]
    ensures AffectedPaths(root, [AddNode(parent, n), AddProperty(t, key, value)]) == UpTo(root, t)
  {
    assert [AddNode(parent, n), AddProperty(t, key, value)][..1] == [AddNode(parent, n)];
    assert [AddNode(parent, n)][..0] == [];
    assert AffectedPaths(root, [AddNode(parent, n)]) == UpTo(root, t);
  }

}
