# Revisioned node store, effective node types and CND name conversion

A Dafny model of three pieces of Jackrabbit Oak.

**The MongoDB prototype node store.** Every node path has one document,
keyed by `depth ":" path`. A document keeps an append-only existence log
and one append-only log per property. Every entry is tagged with the
revision of the commit that wrote it.

- A commit takes the next revision from a counter.
- It appends one entry per `AddNode` / `RemoveNode` / `AddProperty`
  instruction, in list order, to the target document.
- It records the affected paths: each instruction's touched path and its
  ancestors up to the commit root.
- Its commit record is written last. That record makes the revision visible
  and the head.

A read at revision `r` takes, per log, the last entry whose revision is at
most `r` and committed. A node read also carries the newest revision that
affected it, its visible properties and its live children.

The model is split into modules:

- `PrototypeNode` (node.dfy): the in-memory `Node` class with its property
  map, and the update operation `asOperation` builds for its document.
- `Paths`, `Documents`, `Translation` and `Resolution`: the documents and
  the logs, instruction translation, and revision-scoped reads.
- `NodeStores`: the `NodeStore` class with `Execute`.
- `Scenarios`: the commit and read scenarios of the commit command's test
  class, each as a method on a fresh store, with lemmas proving what the
  test asserts.

**Effective node types** (`NodeTypes`). The node-type set of a node is
built from its primary type, its mixins, their declared supertypes and
`nt:base`. It is kept in insertion order without duplicates. The module
models the inclusion queries, `supportsMixin`, the choice of property and
child node definitions (named first, then residual), and the mandatory-item
and orderable-children checks.

**CND name conversion and definition builders** (`NodeTypeDelegates`).
A prefixed name is split at its first `:`. The prefix is mapped through
the definitions' namespace mapping and replaced by the repository's prefix
for that URI. Names without a prefix pass through unchanged. The builders
accumulate supertypes and definitions in order, and `build` converts the
names.

Two choices of the model about the store's logs:

- **Removing a node.** `RemoveNode` reports the parent of the removed node
  as the affected path, not the removed node itself. The removal test
  (CommitCommandMongoTest.java:224) expects only "/".
- **Re-adding an existing node.** An `AddNode` of a node that already
  exists appends an "alive" entry to its existence log. That entry reads
  the same at every revision as the log without it.

## Model

| member | source | states |
|---|---|---|
| Strings.IndexOf | oak-jcr/src/main/java/org/apache/jackrabbit/oak/jcr/nodetype/NodeTypeManagerDelegate.java:103 | the first position of the character, None exactly when it does not occur (indexOf returning -1) |
| Strings.NatToString | oak-mongomk/src/main/java/org/apache/jackrabbit/mongomk/prototype/Node.java:72 | a non-empty run of decimal digits (the rendering of the depth and of a revision) |
| Strings.ParseNatToString | oak-mongomk/src/main/java/org/apache/jackrabbit/mongomk/prototype/Node.java:65 | the decimal rendering of a revision parses back to the same number |
| Strings.NoColonInDecimal | oak-mongomk/src/main/java/org/apache/jackrabbit/mongomk/prototype/Node.java:72 | a decimal depth holds no ':', so the first ':' of a document id is the separator |
| PrototypeNode.ConvertPathToDocumentId | oak-mongomk/src/main/java/org/apache/jackrabbit/mongomk/prototype/Node.java:70-73 | the document id always holds the ':' separator |
| PrototypeNode.DocumentIdRoundTrip | oak-mongomk/src/main/java/org/apache/jackrabbit/mongomk/prototype/Node.java:70-73 | parsing a document id gives back the depth and, after the first ':', the path unchanged |
| PrototypeNode.DocumentIdInjective | oak-mongomk/src/main/java/org/apache/jackrabbit/mongomk/prototype/Node.java:70-73 | two paths with the same document id are the same path |
| PrototypeNode.Node.constructor | oak-mongomk/src/main/java/org/apache/jackrabbit/mongomk/prototype/Node.java:32-35 | a new node has the given path and revision and no property |
| PrototypeNode.Node.SetProperty | oak-mongomk/src/main/java/org/apache/jackrabbit/mongomk/prototype/Node.java:37-39 | afterwards the property reads back as the value and every other property is unchanged |
| PrototypeNode.Node.GetProperty | oak-mongomk/src/main/java/org/apache/jackrabbit/mongomk/prototype/Node.java:41-43 | a value exactly for a stored property, the stored one; None (null) for a property never set |
| PrototypeNode.Node.AsOperation | oak-mongomk/src/main/java/org/apache/jackrabbit/mongomk/prototype/Node.java:57-68 | the op's id and `_id` are the document id; `_changeCount` is bumped by 1 only for an existing document; one map entry per stored property, under the node's revision, with the stored value, and no other |
| PrototypeNode.OperationRevisionKeys | oak-mongomk/src/main/java/org/apache/jackrabbit/mongomk/prototype/Node.java:65 | every sub-key the operation writes reads back as the node's revision |
| Paths.JoinCount | oak-mongomk/src/main/java/org/apache/jackrabbit/mongomk/prototype/Node.java:71 | a path string holds one '/' per segment |
| Paths.DepthOfPathString | oak-mongomk/src/main/java/org/apache/jackrabbit/mongomk/prototype/Node.java:71 | the depth of a path string is its number of segments, the root at depth 0 |
| Paths.JoinInjective | oak-mongomk/src/main/java/org/apache/jackrabbit/mongomk/prototype/Node.java:70-73 | segment lists with the same joined text are equal |
| Paths.PathStringInjective | oak-mongomk/src/main/java/org/apache/jackrabbit/mongomk/prototype/Node.java:70-73 | distinct paths render as distinct strings |
| Paths.DocIdInjective | oak-mongomk/src/main/java/org/apache/jackrabbit/mongomk/prototype/Node.java:70-73 | distinct paths get distinct document ids, so documents can be keyed by path |
| Paths.DocIdShape | oak-mongomk/src/main/java/org/apache/jackrabbit/mongomk/prototype/Node.java:72 | the store's document key is the segment count, ':', and the path string |
| Documents.LastQualifying | oak-mongomk/src/test/java/org/apache/jackrabbit/mongomk/command/CommitCommandMongoTest.java:170-187 | the position of the last log entry that a read at r can see (committed and not after r), and that no later entry qualifies; None iff none qualifies |
| Documents.VisibleIsGreatest | oak-mongomk/src/test/java/org/apache/jackrabbit/mongomk/command/CommitCommandMongoTest.java:170-187 | on a sorted log the visible value is the one with the greatest committed revision not after r |
| Documents.VisibleIgnoresUnseen | oak-mongomk/src/test/java/org/apache/jackrabbit/mongomk/command/CommitCommandMongoTest.java:170-174 | entries of a revision a read cannot see (later, or not committed) change nothing it reads |
| Documents.VisibleTakesNewest | oak-mongomk/src/test/java/org/apache/jackrabbit/mongomk/command/CommitCommandMongoTest.java:178-180 | a committed revision's entries seen at r make its last entry the visible value |
| Documents.VisibleIgnoresOtherCommit | oak-mongomk/src/test/java/org/apache/jackrabbit/mongomk/command/CommitCommandMongoTest.java:170-187 | committing a revision that a log does not mention changes nothing read from it |
| Documents.AppendKeepsOrder | oak-mongomk/src/main/java/org/apache/jackrabbit/mongomk/prototype/Node.java:64-66 | appending entries of revision rev to a log sorted by revision and older than rev keeps it sorted, now older than rev + 1 |
| Translation.EntriesAtRevision | oak-mongomk/src/main/java/org/apache/jackrabbit/mongomk/prototype/Node.java:65 | every existence and property entry a commit appends carries the commit's revision |
| Translation.ApplyShape | oak-mongomk/src/main/java/org/apache/jackrabbit/mongomk/prototype/Node.java:57-68 | one instruction appends one entry to its own document's log and touches no other document |
| Translation.ApplyAllShape | oak-mongomk/src/main/java/org/apache/jackrabbit/mongomk/prototype/Node.java:64-66 | after a commit every log is the old log followed by the commit's entries for it; a document exists iff it did or the commit wrote it |
| Translation.ApplyAllPresence | oak-mongomk/src/main/java/org/apache/jackrabbit/mongomk/prototype/Node.java:57-68 | a commit keeps the documents well formed, and a path has a document afterwards iff it had one or an instruction writes it |
| Translation.ApplyAllExistence | oak-mongomk/src/test/java/org/apache/jackrabbit/mongomk/command/CommitCommandMongoTest.java:200-225 | a commit leaves a path's existence log as the old log followed by the commit's existence entries for that path, in list order |
| Translation.ApplyAllProperty | oak-mongomk/src/main/java/org/apache/jackrabbit/mongomk/prototype/Node.java:64-66 | a commit leaves a property log as the old log followed by the commit's entries for that property, in list order |
| Translation.ApplyAllChangeCount | oak-mongomk/src/main/java/org/apache/jackrabbit/mongomk/prototype/Node.java:57-63 | a commit raises the change count of a document that existed before it by exactly one if any of its instructions writes the document, however many do; a document it creates has count 0 (the update operation of a new node does not increment) |
| Resolution.OrderedUnwritten | oak-mongomk/src/main/java/org/apache/jackrabbit/mongomk/prototype/Node.java:57-63 | before the commit at rev no document holds an entry of rev, so the commit's first write to an existing document is the one that increments |
| Resolution.ChangeCountAfterCommit | oak-mongomk/src/main/java/org/apache/jackrabbit/mongomk/prototype/Node.java:57-63 | on the store's ordered documents a commit increments each pre-existing document it writes exactly once, leaves the others, and creates documents at count 0 |
| Translation.ApplyAllFrame | oak-mongomk/src/test/java/org/apache/jackrabbit/mongomk/command/CommitCommandMongoTest.java:330-361 | a document no instruction targets is left exactly as it was |
| Translation.AppendCommutes | oak-mongomk/src/test/java/org/apache/jackrabbit/mongomk/command/CommitCommandMongoTest.java:100-126 | appends to different logs of one document commute |
| Translation.ApplyCommutes | oak-mongomk/src/test/java/org/apache/jackrabbit/mongomk/command/CommitCommandMongoTest.java:100-126 | instructions writing different logs give the same documents in either order |
| Translation.ApplyApart | oak-mongomk/src/test/java/org/apache/jackrabbit/mongomk/command/CommitCommandMongoTest.java:100-126 | two instructions on different documents give the same documents in either order |
| Translation.ApplyAllAppend | oak-mongomk/src/test/java/org/apache/jackrabbit/mongomk/command/CommitCommandMongoTest.java:100-126 | applying a concatenation is applying its parts one after the other |
| Translation.ApplyAllSwap | oak-mongomk/src/test/java/org/apache/jackrabbit/mongomk/command/CommitCommandMongoTest.java:100-126 | swapping neighbouring instructions on different logs (a property before its node's creation) gives the same documents |
| Translation.LastExistenceWrite | oak-mongomk/src/test/java/org/apache/jackrabbit/mongomk/command/CommitCommandMongoTest.java:200-225 | None exactly when the commit neither creates nor removes the node, otherwise whether one of its writes creates it |
| Translation.CommitPropertiesSpec | oak-mongomk/src/test/java/org/apache/jackrabbit/mongomk/command/CommitCommandMongoTest.java:294-327 | a key is in the commit's properties iff some instruction writes it, with the value of such a write |
| Translation.ExistenceEntriesLast | oak-mongomk/src/test/java/org/apache/jackrabbit/mongomk/command/CommitCommandMongoTest.java:200-225 | a commit's existence entries at a path end with its last create or remove of that node, and are empty iff it has none |
| Translation.PropertyEntriesLast | oak-mongomk/src/test/java/org/apache/jackrabbit/mongomk/command/CommitCommandMongoTest.java:129-158 | a commit's entries for one property end with the value the commit leaves it, and are empty iff it never sets it |
| Translation.UpToSpec | oak-mongomk/src/test/java/org/apache/jackrabbit/mongomk/command/CommitCommandMongoTest.java:191-198 | the walk from a target stops at the commit root: it is exactly the target's ancestors (and itself) at or below the root |
| Translation.AffectedPathsSpec | oak-mongomk/src/test/java/org/apache/jackrabbit/mongomk/command/CommitCommandMongoTest.java:191-198 | a path is affected iff it is some instruction's touched path or an ancestor of one at or below the commit root |
| Translation.AffectedPathsAppend | oak-mongomk/src/test/java/org/apache/jackrabbit/mongomk/command/CommitCommandMongoTest.java:191-198 | the affected paths of two instruction lists run one after the other are the union of the affected paths of each |
| Translation.NodeWithPropertyAffected | oak-mongomk/src/test/java/org/apache/jackrabbit/mongomk/command/CommitCommandMongoTest.java:133-139 | adding a node and then setting one of its properties affects exactly the paths from that node up to the commit root |
| Resolution.ChildNamesSpec | oak-mongomk/src/test/java/org/apache/jackrabbit/mongomk/command/CommitCommandMongoTest.java:252-269 | a name is a child of p at r iff the node p/name is alive at r |
| Resolution.ResolveSpec | oak-mongomk/src/test/java/org/apache/jackrabbit/mongomk/command/CommitCommandMongoTest.java:266-268 | a node read is present iff the node's own existence log shows it alive at r; it carries the newest affecting revision, exactly the properties with a visible value (with that value) and exactly its live children |
| NodeStores.NodeStore.Resolve | oak-mongomk/src/test/java/org/apache/jackrabbit/mongomk/command/CommitCommandMongoTest.java:266-268 | the read node is present iff alive at r, with the newest affecting revision and exactly the live children |
| Resolution.LastAffecting | oak-mongomk/src/test/java/org/apache/jackrabbit/mongomk/command/CommitCommandMongoTest.java:330-361 | the newest committed revision not after r whose commit reports p as affected, None iff none does |
| Resolution.ApplyAllOrdered | oak-mongomk/src/test/java/org/apache/jackrabbit/mongomk/command/CommitCommandMongoTest.java:56-71 | a commit at the next revision keeps every log ordered and older than the following revision |
| Resolution.UnseenLog | oak-mongomk/src/test/java/org/apache/jackrabbit/mongomk/command/CommitCommandMongoTest.java:170-174 | a log read that cannot see a commit reads as before the commit |
| Resolution.SeenLog | oak-mongomk/src/test/java/org/apache/jackrabbit/mongomk/command/CommitCommandMongoTest.java:178-180 | once committed, a commit's last entry in a log is what later reads see |
| Resolution.ExistenceAfterCommit | oak-mongomk/src/test/java/org/apache/jackrabbit/mongomk/command/CommitCommandMongoTest.java:200-225 | reads that cannot see a commit keep their existence answer; later reads see the commit's last create or remove of the node, else the old answer |
| Resolution.PropertyAfterCommit | oak-mongomk/src/test/java/org/apache/jackrabbit/mongomk/command/CommitCommandMongoTest.java:129-158 | the same for one property: later reads see the value the commit last set, else the old one |
| Resolution.PropertiesUnseen | oak-mongomk/src/test/java/org/apache/jackrabbit/mongomk/command/CommitCommandMongoTest.java:170-174 | reads that cannot see a commit see the same property map as before it |
| Resolution.PropertiesAfterCommit | oak-mongomk/src/test/java/org/apache/jackrabbit/mongomk/command/CommitCommandMongoTest.java:294-327 | reads at or after a committed revision see the old properties merged with the commit's, the commit winning per key (union across properties, last write wins per property) |
| Resolution.ChildrenAfterCommit | oak-mongomk/src/test/java/org/apache/jackrabbit/mongomk/command/CommitCommandMongoTest.java:200-225 | reads that cannot see a commit see the same children; later reads see a child iff the commit last created it, or did not touch it and it was a child before |
| Resolution.RevisionAfterCommit | oak-mongomk/src/test/java/org/apache/jackrabbit/mongomk/command/CommitCommandMongoTest.java:330-361 | recording a commit leaves older reads' node revision alone; later, a node carries the new revision iff the commit reports it affected |
| Resolution.ResolveUnseen | oak-mongomk/src/test/java/org/apache/jackrabbit/mongomk/command/CommitCommandMongoTest.java:161-188 | a read that cannot see a commit (an older revision, or a commit whose record is never written) resolves every node as before the commit |
| NodeStores.NodeStore.constructor | oak-mongomk/src/test/java/org/apache/jackrabbit/mongomk/command/CommitCommandMongoTest.java:284 | a fresh repository holds only the root, committed as revision 0; head 0, next 1 |
| NodeStores.NodeStore.HeadRevision | oak-mongomk/src/test/java/org/apache/jackrabbit/mongomk/command/CommitCommandMongoTest.java:95 | the newest committed revision |
| NodeStores.NodeStore.NextRevision | oak-mongomk/src/test/java/org/apache/jackrabbit/mongomk/command/CommitCommandMongoTest.java:96 | above the head and every committed revision |
| NodeStores.NodeStore.AffectedPathsOf | oak-mongomk/src/test/java/org/apache/jackrabbit/mongomk/command/CommitCommandMongoTest.java:94 | the affected paths recorded for a committed revision, None for one without a record |
| NodeStores.NodeStore.Execute | oak-mongomk/src/test/java/org/apache/jackrabbit/mongomk/command/CommitCommandMongoTest.java:56-71 | a successful commit takes the next revision, becomes head, writes the instructions' entries and records its affected paths; a failed one consumes its revision and records nothing; reads of older revisions, and every read after a failure, are unchanged |
| NodeStores.NodeStore.WriteEntries | oak-mongomk/src/test/java/org/apache/jackrabbit/mongomk/command/CommitCommandMongoTest.java:100-112 | the documents are the instructions applied in list order at the revision, and the affected set is theirs |
| NodeStores.CommitKeepsInvariant | oak-mongomk/src/test/java/org/apache/jackrabbit/mongomk/command/CommitCommandMongoTest.java:56-71 | the store invariant (ordered logs, committed head and revision 0, root alive) survives a commit, recorded or not |
| NodeStores.NewDocumentsValid | oak-mongomk/src/test/java/org/apache/jackrabbit/mongomk/command/CommitCommandMongoTest.java:56-71 | a commit leaves well-formed, ordered documents and never touches the root's existence |
| NodeStores.InitialOrdered | oak-mongomk/src/test/java/org/apache/jackrabbit/mongomk/command/CommitCommandMongoTest.java:284 | the initial repository's logs are ordered below revision 1 |
| NodeStores.RootAlwaysExists | oak-mongomk/src/test/java/org/apache/jackrabbit/mongomk/command/CommitCommandMongoTest.java:284 | the root resolves at every revision, revision 0 included |
| Scenarios.Replay | oak-mongomk/src/test/java/org/apache/jackrabbit/mongomk/command/CommitCommandMongoTest.java:55-71 | executing commits one after another on a fresh store gives them revisions 1, 2, ... in order; head is the last and the counter one above; documents and records are those of the replay |
| Scenarios.ReplayHistorySpec | oak-mongomk/src/test/java/org/apache/jackrabbit/mongomk/command/CommitCommandMongoTest.java:55-71 | after replaying n commits, revision k has a record iff k <= n; record k is the k-th commit's, record 0 the initial one |
| Scenarios.AddedChildren | oak-mongomk/src/test/java/org/apache/jackrabbit/mongomk/command/CommitCommandMongoTest.java:252-257 | a commit of AddNodes creates exactly the named children |
| Scenarios.CreatedByFirstCommit | oak-mongomk/src/test/java/org/apache/jackrabbit/mongomk/command/CommitCommandMongoTest.java:79-91 | a node the first commit creates (without removals) is alive from revision 1 on |
| Scenarios.DistinctCount | oak-mongomk/src/test/java/org/apache/jackrabbit/mongomk/command/CommitCommandMongoTest.java:268 | distinct names make a set of as many children |
| Scenarios.InitialChildren | oak-mongomk/src/test/java/org/apache/jackrabbit/mongomk/command/CommitCommandMongoTest.java:284 | the initial root has no children |
| Scenarios.FirstCommitChildren | oak-mongomk/src/test/java/org/apache/jackrabbit/mongomk/command/CommitCommandMongoTest.java:252-264 | after a first commit of AddNodes under the root, its children are exactly those names |
| Scenarios.ThreeChildren | oak-mongomk/src/test/java/org/apache/jackrabbit/mongomk/command/CommitCommandMongoTest.java:268 | adding a, b and c under the root gives it three children at revision 1 |
| Scenarios.ExistingParentContainsChildren | oak-mongomk/src/test/java/org/apache/jackrabbit/mongomk/command/CommitCommandMongoTest.java:252-269 | the commit takes revision 1 and the root read there has child count 3 |
| Scenarios.SiblingsScenario | oak-mongomk/src/test/java/org/apache/jackrabbit/mongomk/command/CommitCommandMongoTest.java:263-268 | after the commit adding a, b and c under the root, the root read at revision 1 has three children |
| Scenarios.OneChildCommit | oak-mongomk/src/test/java/org/apache/jackrabbit/mongomk/command/CommitCommandMongoTest.java:51-75 | a commit adding one child of the root adds that name, and only it, to the root's children |
| Scenarios.ThreeCommitsChildSet | oak-mongomk/src/test/java/org/apache/jackrabbit/mongomk/command/CommitCommandMongoTest.java:73-75 | after the three commits the root at revision 3 has exactly the children 1, 2 and 3 |
| Scenarios.ThreeCommitsChildren | oak-mongomk/src/test/java/org/apache/jackrabbit/mongomk/command/CommitCommandMongoTest.java:73-75 | after three commits each adding one child of the root, a name is a child of the root at revision 3 iff it is one of the three |
| Scenarios.OneChildAffected | oak-mongomk/src/test/java/org/apache/jackrabbit/mongomk/command/CommitCommandMongoTest.java:53-55 | a commit under / adding one child affects the root and that child |
| Scenarios.ThreeCommitsChildExists | oak-mongomk/src/test/java/org/apache/jackrabbit/mongomk/command/CommitCommandMongoTest.java:73-75 | each added child is alive at revision 3 |
| Scenarios.ThreeCommitsRevisions | oak-mongomk/src/test/java/org/apache/jackrabbit/mongomk/command/CommitCommandMongoTest.java:73-75 | read at revision 3 the k-th child carries revision k |
| Scenarios.AddNewNodesToSameParent | oak-mongomk/src/test/java/org/apache/jackrabbit/mongomk/command/CommitCommandMongoTest.java:51-76 | the commits take revisions 1, 2, 3; at revision 3 the root carries 3 and has children 1, 2, 3 carrying revisions 1, 2, 3 |
| Scenarios.ChildScenarioReads | oak-mongomk/src/test/java/org/apache/jackrabbit/mongomk/command/CommitCommandMongoTest.java:73-75 | after three commits adding 1, 2 and 3, the root read at revision 3 carries revision 3 and exactly those children, and child k carries revision k |
| Scenarios.TreeAffected | oak-mongomk/src/test/java/org/apache/jackrabbit/mongomk/command/CommitCommandMongoTest.java:94 | adding /a, /a/b, /a/c under / affects /, /a, /a/b, /a/c |
| Scenarios.TreeRootChild | oak-mongomk/src/test/java/org/apache/jackrabbit/mongomk/command/CommitCommandMongoTest.java:81-83 | that commit creates /a and no other child of the root |
| Scenarios.TreeChildExists | oak-mongomk/src/test/java/org/apache/jackrabbit/mongomk/command/CommitCommandMongoTest.java:90-91 | after it /a/b exists at revision 1 |
| Scenarios.CommitAddNodes | oak-mongomk/src/test/java/org/apache/jackrabbit/mongomk/command/CommitCommandMongoTest.java:79-97 | the commit is revision 1 and head, next is 2, /a/b exists, and the affected paths are /, /a, /a/b, /a/c |
| Scenarios.TreeScenario | oak-mongomk/src/test/java/org/apache/jackrabbit/mongomk/command/CommitCommandMongoTest.java:89-94 | the record of revision 1 lists /, /a, /a/b and /a/c as affected, and /a/b exists at revision 1 |
| Scenarios.TreeChildren | oak-mongomk/src/test/java/org/apache/jackrabbit/mongomk/command/CommitCommandMongoTest.java:203-210 | after the tree commit a is the root's only child |
| Scenarios.RemovalChildren | oak-mongomk/src/test/java/org/apache/jackrabbit/mongomk/command/CommitCommandMongoTest.java:220-221 | after removing /a the root has no child at the removal's revision |
| Scenarios.OneRemovalCommit | oak-mongomk/src/test/java/org/apache/jackrabbit/mongomk/command/CommitCommandMongoTest.java:212-221 | a commit removing the only child of the root leaves the root without children from its revision on |
| Scenarios.RemovalRead | oak-mongomk/src/test/java/org/apache/jackrabbit/mongomk/command/CommitCommandMongoTest.java:220-224 | after adding /a and removing it, the root has no children at revision 2, and the removal affects only / |
| Scenarios.RemoveNodeScenario | oak-mongomk/src/test/java/org/apache/jackrabbit/mongomk/command/CommitCommandMongoTest.java:200-225 | the removal is revision 2, the root then has no children, and the removal's affected set is exactly {/} |
| Scenarios.RemovalScenario | oak-mongomk/src/test/java/org/apache/jackrabbit/mongomk/command/CommitCommandMongoTest.java:200-225 | after both commits, the root read at revision 2 exists with no children and record 2 lists only / as affected |
| Scenarios.AddChildrenAffected | oak-mongomk/src/test/java/org/apache/jackrabbit/mongomk/command/CommitCommandMongoTest.java:330-346 | a commit of AddNodes under its own root affects exactly that root and the paths one level below it that end in a new name |
| Scenarios.RootCommitAffected | oak-mongomk/src/test/java/org/apache/jackrabbit/mongomk/command/CommitCommandMongoTest.java:332-338 | adding a, b, c under / affects /, /a, /b, /c |
| Scenarios.SubtreeCommitAffected | oak-mongomk/src/test/java/org/apache/jackrabbit/mongomk/command/CommitCommandMongoTest.java:340-346 | adding d, e under /a, committed at /a, affects /a, /a/d, /a/e only |
| Scenarios.NoOtherNodesTouched | oak-mongomk/src/test/java/org/apache/jackrabbit/mongomk/command/CommitCommandMongoTest.java:330-361 | the first commit affects /, /a, /b, /c and the second /a, /a/d, /a/e only, so the root read at the second revision still carries the first |
| Scenarios.SubtreeCommitSkipsRoot | oak-mongomk/src/test/java/org/apache/jackrabbit/mongomk/command/CommitCommandMongoTest.java:355 | when the second commit's affected set leaves out /, the newest commit affecting / at revision 2 is still the first |
| Scenarios.SubtreeScenario | oak-mongomk/src/test/java/org/apache/jackrabbit/mongomk/command/CommitCommandMongoTest.java:348-360 | the two records list {/, /a, /b, /c} and {/a, /a/d, /a/e}, and the root read at revision 2 still carries revision 1 |
| Scenarios.UpdateAAndAddDAndEAffected | oak-mongomk/src/test/java/org/apache/jackrabbit/mongomk/command/CommitCommandMongoTest.java:197 | the update rooted at /a affects /a, /a/b, /a/d, /a/b/e and not the root |
| Scenarios.OutOfOrderProperties | oak-mongomk/src/test/java/org/apache/jackrabbit/mongomk/command/CommitCommandMongoTest.java:102-107 | in the out-of-order commit only key1 is set on /a |
| Scenarios.OutOfOrderChildProperties | oak-mongomk/src/test/java/org/apache/jackrabbit/mongomk/command/CommitCommandMongoTest.java:104-106 | the out-of-order commit sets only key2 on /a/b and only key3 on /a/c |
| Scenarios.OutOfOrderAffected | oak-mongomk/src/test/java/org/apache/jackrabbit/mongomk/command/CommitCommandMongoTest.java:123 | the out-of-order commit affects exactly /, /a, /a/b and /a/c |
| Scenarios.OutOfOrderChildExists | oak-mongomk/src/test/java/org/apache/jackrabbit/mongomk/command/CommitCommandMongoTest.java:115-120 | /a/b is alive at revision 1 |
| Scenarios.OutOfOrderExists | oak-mongomk/src/test/java/org/apache/jackrabbit/mongomk/command/CommitCommandMongoTest.java:115-120 | /a and /a/c are alive at revision 1 although their properties precede their creation |
| Scenarios.OutOfOrderRead | oak-mongomk/src/test/java/org/apache/jackrabbit/mongomk/command/CommitCommandMongoTest.java:115-120 | at revision 1 /a has exactly key1, /a/b exactly key2 and /a/c exactly key3 |
| Scenarios.CommitAddNodesAndPropertiesOutOfOrder | oak-mongomk/src/test/java/org/apache/jackrabbit/mongomk/command/CommitCommandMongoTest.java:100-126 | the commit is revision 1, head 1 and next 2; it affects exactly /, /a, /a/b and /a/c; /a, /a/b and /a/c read exactly key1, key2 and key3 |
| Scenarios.OutOfOrderScenario | oak-mongomk/src/test/java/org/apache/jackrabbit/mongomk/command/CommitCommandMongoTest.java:114-125 | record 1 lists exactly /, /a, /a/b and /a/c; at revision 1 /a, /a/b and /a/c each carry revision 1 and exactly key1, key2 and key3, although properties came before their nodes |
| Scenarios.NodeWithPropertiesSets | oak-mongomk/src/test/java/org/apache/jackrabbit/mongomk/command/CommitCommandMongoTest.java:274-277 | a commit re-adding /a with three properties sets exactly those three |
| Scenarios.TwoCommitProperties | oak-mongomk/src/test/java/org/apache/jackrabbit/mongomk/command/CommitCommandMongoTest.java:294-327 | two commits' properties read after both are the initial ones merged with the first's and then the second's |
| Scenarios.CreatedBySecondCommit | oak-mongomk/src/test/java/org/apache/jackrabbit/mongomk/command/CommitCommandMongoTest.java:309-318 | a node a second commit creates is alive from revision 2 on |
| Scenarios.MergeExists | oak-mongomk/src/test/java/org/apache/jackrabbit/mongomk/command/CommitCommandMongoTest.java:321-326 | /a is alive at revision 2 after both commits |
| Scenarios.MergeCommitsSet | oak-mongomk/src/test/java/org/apache/jackrabbit/mongomk/command/CommitCommandMongoTest.java:296-313 | the two commits set existed_key1..3 and key1..3 on /a |
| Scenarios.InitialProperties | oak-mongomk/src/test/java/org/apache/jackrabbit/mongomk/command/CommitCommandMongoTest.java:284 | no node below the root has properties initially |
| Scenarios.MergeProperties | oak-mongomk/src/test/java/org/apache/jackrabbit/mongomk/command/CommitCommandMongoTest.java:321-326 | at revision 2, /a's properties are the first commit's overridden by the second's |
| Scenarios.MergePropertiesSomeExisted | oak-mongomk/src/test/java/org/apache/jackrabbit/mongomk/command/CommitCommandMongoTest.java:294-327 | the second commit is revision 2 and /a there has all six properties, none overwritten |
| Scenarios.SomeExistedReads | oak-mongomk/src/test/java/org/apache/jackrabbit/mongomk/command/CommitCommandMongoTest.java:320-326 | /a read at revision 2 holds the three properties of each commit, six in all |
| Scenarios.FirstCommitProperties | oak-mongomk/src/test/java/org/apache/jackrabbit/mongomk/command/CommitCommandMongoTest.java:285-290 | below the root, a first commit's properties read at or after it are exactly those it sets |
| Scenarios.RootAtZero | oak-mongomk/src/test/java/org/apache/jackrabbit/mongomk/command/CommitCommandMongoTest.java:284 | read at revision 0 after a commit, the root has no children and no properties |
| Scenarios.NodeWithPropertiesExists | oak-mongomk/src/test/java/org/apache/jackrabbit/mongomk/command/CommitCommandMongoTest.java:285-290 | /a is alive at revision 1 after the commit that adds it |
| Scenarios.MergePropertiesNoneExisted | oak-mongomk/src/test/java/org/apache/jackrabbit/mongomk/command/CommitCommandMongoTest.java:272-291 | the root at revision 0 exists with revision 0 and is empty; the commit is revision 1 and /a there has exactly key1..3 |
| Scenarios.NoneExistedScenario | oak-mongomk/src/test/java/org/apache/jackrabbit/mongomk/command/CommitCommandMongoTest.java:284-290 | the root read at revision 0 is the initial root with no properties or children; /a read at revision 1 holds key1, key2 and key3 |
| Scenarios.TreeWithPropertiesAffected | oak-mongomk/src/test/java/org/apache/jackrabbit/mongomk/command/CommitCommandMongoTest.java:154-157 | adding /a, /a/b, /a/c with properties affects those nodes and the root |
| Scenarios.SingleWrite | oak-mongomk/src/test/java/org/apache/jackrabbit/mongomk/command/CommitCommandMongoTest.java:134-139 | a commit writing exactly one property of a node sets exactly that property |
| Scenarios.StaysAlive | oak-mongomk/src/test/java/org/apache/jackrabbit/mongomk/command/CommitCommandMongoTest.java:129-158 | a commit without removals keeps an alive node alive |
| Scenarios.CreatedAlive | oak-mongomk/src/test/java/org/apache/jackrabbit/mongomk/command/CommitCommandMongoTest.java:129-158 | a node a commit without removals creates is alive from its revision on |
| Scenarios.CreateAndReAddSet | oak-mongomk/src/test/java/org/apache/jackrabbit/mongomk/command/CommitCommandMongoTest.java:133-139 | the properties the simple scenario and the re-adding commit set on /a, /a/b and /a/c |
| Scenarios.ReAddRead | oak-mongomk/src/test/java/org/apache/jackrabbit/mongomk/command/CommitCommandMongoTest.java:147-152 | after both commits /a, /a/b, /a/c are alive at revision 2 with the old and the new properties |
| Scenarios.ReAddResolved | oak-mongomk/src/test/java/org/apache/jackrabbit/mongomk/command/CommitCommandMongoTest.java:147-152 | each re-added node read at revision 2 carries revision 2 and both commits' properties |
| Scenarios.CommitAddNodesWhichAlreadyExist | oak-mongomk/src/test/java/org/apache/jackrabbit/mongomk/command/CommitCommandMongoTest.java:129-158 | affected {/, /a, /a/b, /a/c}, all carrying revision 2, and each node keeps its old property beside the new one |
| Scenarios.ReAddScenario | oak-mongomk/src/test/java/org/apache/jackrabbit/mongomk/command/CommitCommandMongoTest.java:146-157 | re-adding the existing nodes: record 2 lists /, /a, /a/b, /a/c; each of them read at revision 2 carries revision 2 and holds its old property beside the new one |
| Scenarios.AliveAfterTwoCommits | oak-mongomk/src/test/java/org/apache/jackrabbit/mongomk/command/CommitCommandMongoTest.java:161-164 | a node created by one of two commits without removals is alive from that commit's revision on |
| Scenarios.AliveAfterThreeCommits | oak-mongomk/src/test/java/org/apache/jackrabbit/mongomk/command/CommitCommandMongoTest.java:161-167 | the same over three commits |
| Scenarios.AliveFromFirst | oak-mongomk/src/test/java/org/apache/jackrabbit/mongomk/command/CommitCommandMongoTest.java:169-174 | a node created by the first of two commits without removals is alive from revision 1 on |
| Scenarios.AliveFromSecond | oak-mongomk/src/test/java/org/apache/jackrabbit/mongomk/command/CommitCommandMongoTest.java:175-180 | a node created by the second of two commits without removals is alive from revision 2 on |
| Scenarios.CreateCommitShape | oak-mongomk/src/test/java/org/apache/jackrabbit/mongomk/command/CommitCommandMongoTest.java:169-174 | the simple scenario's commit removes nothing and creates /a, /a/b and /a/c |
| Scenarios.UpdateShape | oak-mongomk/src/test/java/org/apache/jackrabbit/mongomk/command/CommitCommandMongoTest.java:175-180 | the update removes nothing and creates /a/d and /a/b/e |
| Scenarios.CommitAndMergeExists | oak-mongomk/src/test/java/org/apache/jackrabbit/mongomk/command/CommitCommandMongoTest.java:168-187 | /a, /a/b, /a/c are alive from revision 1 and /a/d, /a/b/e from revision 2 |
| Scenarios.CommitAndMergeRevisions | oak-mongomk/src/test/java/org/apache/jackrabbit/mongomk/command/CommitCommandMongoTest.java:168-187 | the node revisions each read of the merge test expects, from the recorded affected sets |
| Scenarios.MergeTestRecords | oak-mongomk/src/test/java/org/apache/jackrabbit/mongomk/command/CommitCommandMongoTest.java:161-167 | the three commits take revisions 1, 2 and 3 and record the affected sets of the scenario, its update and the scenario again |
| Scenarios.MergeTestReads | oak-mongomk/src/test/java/org/apache/jackrabbit/mongomk/command/CommitCommandMongoTest.java:169-187 | every node the test checks exists at each checked revision with the revision of its newest affecting commit, and /a holds int and double from revision 2 on |
| Scenarios.MergeScenarioReads | oak-mongomk/src/test/java/org/apache/jackrabbit/mongomk/command/CommitCommandMongoTest.java:169-187 | the node revisions the three reads expect: all 1 at revision 1; / and /a/c keep 1 at revision 2; at revision 3, /a/d and /a/b/e keep 2 and the rest carry 3 |
| Scenarios.CommitAndMergeRead | oak-mongomk/src/test/java/org/apache/jackrabbit/mongomk/command/CommitCommandMongoTest.java:168-187 | a node alive at r resolves with the newest revision that affected it |
| Scenarios.CommitAndMergeNodes | oak-mongomk/src/test/java/org/apache/jackrabbit/mongomk/command/CommitCommandMongoTest.java:161-188 | at revision 1 the scenario's nodes carry 1; at 2 the updated and new nodes carry 2 while / and /a/c keep 1; at 3 the re-created nodes carry 3 while /a/d and /a/b/e keep 2; /a has int and double at 2 and 3 |
| Scenarios.ThreeCommitProperties | oak-mongomk/src/test/java/org/apache/jackrabbit/mongomk/command/CommitCommandMongoTest.java:179-187 | a read before the third commit sees the first two commits' properties merged, a read after it all three |
| Scenarios.UpdateSetsDouble | oak-mongomk/src/test/java/org/apache/jackrabbit/mongomk/command/CommitCommandMongoTest.java:179-180 | the update sets only double on /a |
| Scenarios.CommitAndMergePropertiesOfA | oak-mongomk/src/test/java/org/apache/jackrabbit/mongomk/command/CommitCommandMongoTest.java:179-187 | at revisions 2 and 3 /a has int and double: re-creating rewrites int with the same value and keeps double |
| NodeTypes.Lookup | oak-core/src/main/java/org/apache/jackrabbit/oak/plugins/nodetype/EffectiveNodeType.java:143 | the registered type of that name, None exactly when the manager has none |
| NodeTypes.AddType | oak-core/src/main/java/org/apache/jackrabbit/oak/plugins/nodetype/EffectiveNodeType.java:77-94 | a present name changes nothing; otherwise the type is appended, nt:base follows a non-mixin with at most one declared supertype, and names stay distinct |
| NodeTypes.AddSupertypes | oak-core/src/main/java/org/apache/jackrabbit/oak/plugins/nodetype/EffectiveNodeType.java:82-85 | adding declared supertypes keeps what was there and keeps names distinct |
| NodeTypes.SupertypesAdded | oak-core/src/main/java/org/apache/jackrabbit/oak/plugins/nodetype/EffectiveNodeType.java:82-85 | every declared supertype from the index on is included afterwards |
| NodeTypes.AddTypeSupertypes | oak-core/src/main/java/org/apache/jackrabbit/oak/plugins/nodetype/EffectiveNodeType.java:82-85 | a new type with several declared supertypes brings each of them in |
| NodeTypes.AddTypes | oak-core/src/main/java/org/apache/jackrabbit/oak/plugins/nodetype/EffectiveNodeType.java:67-70 | adding mixins in order keeps the earlier types, includes every mixin and keeps names distinct |
| NodeTypes.EffectiveContents | oak-core/src/main/java/org/apache/jackrabbit/oak/plugins/nodetype/EffectiveNodeType.java:62-71 | the primary type first, every mixin, no name twice, and nt:base for a non-mixin primary with at most one declared supertype |
| NodeTypes.EffectiveNodeType.constructor | oak-core/src/main/java/org/apache/jackrabbit/oak/plugins/nodetype/EffectiveNodeType.java:62-71 | the map is filled with the effective types of the primary type and the mixins |
| NodeTypes.EffectiveNodeType.AddNodeType | oak-core/src/main/java/org/apache/jackrabbit/oak/plugins/nodetype/EffectiveNodeType.java:77-94 | the map becomes the type-adding function of the old one |
| NodeTypes.EffectiveNodeType.AddDeclaredSupertypes | oak-core/src/main/java/org/apache/jackrabbit/oak/plugins/nodetype/EffectiveNodeType.java:82-85 | the map becomes the old one with the declared supertypes added in order |
| NodeTypes.IncludesNodeType | oak-core/src/main/java/org/apache/jackrabbit/oak/plugins/nodetype/EffectiveNodeType.java:103-110 | true iff some included type is of that type |
| NodeTypes.IncludesNodeTypes | oak-core/src/main/java/org/apache/jackrabbit/oak/plugins/nodetype/EffectiveNodeType.java:121-128 | true iff every name is included, true for none |
| NodeTypes.SupportsMixin | oak-core/src/main/java/org/apache/jackrabbit/oak/plugins/nodetype/EffectiveNodeType.java:136-152 | included: true; a known type: true only for a non-abstract mixin; an unknown name: true |
| NodeTypes.EffectiveIncludes | oak-core/src/main/java/org/apache/jackrabbit/oak/plugins/nodetype/EffectiveNodeType.java:62-71 | the effective type includes whatever the primary type is and every mixin, so each mixin is supported again |
| NodeTypes.PropertyDefinitions | oak-core/src/main/java/org/apache/jackrabbit/oak/plugins/nodetype/EffectiveNodeType.java:162-168 | exactly the property definitions of the included types, the last type's after all earlier ones |
| NodeTypes.NodeDefinitions | oak-core/src/main/java/org/apache/jackrabbit/oak/plugins/nodetype/EffectiveNodeType.java:154-160 | exactly the child node definitions of the included types, the last type's after all earlier ones |
| NodeTypes.PropertyDefinitionsAppend | oak-core/src/main/java/org/apache/jackrabbit/oak/plugins/nodetype/EffectiveNodeType.java:162-168 | the property definitions of two runs of types are those of the first run followed by those of the second: insertion order is kept |
| NodeTypes.NodeDefinitionsAppend | oak-core/src/main/java/org/apache/jackrabbit/oak/plugins/nodetype/EffectiveNodeType.java:154-160 | the child node definitions of two runs of types are those of the first run followed by those of the second |
| NodeTypes.FirstFittingProperty | oak-core/src/main/java/org/apache/jackrabbit/oak/plugins/nodetype/EffectiveNodeType.java:337-343 | the first definition of equal multiplicity and compatible type (UNDEFINED on either side matches; type ignored without exact match), None iff none fits |
| NodeTypes.GetPropertyDefinition | oak-core/src/main/java/org/apache/jackrabbit/oak/plugins/nodetype/EffectiveNodeType.java:332-356 | a fitting named definition, else a fitting residual one, and a violation iff neither exists |
| NodeTypes.NamedDefinitionFirst | oak-core/src/main/java/org/apache/jackrabbit/oak/plugins/nodetype/EffectiveNodeType.java:337-343 | the first fitting named definition is the result whenever one exists |
| NodeTypes.ResidualPropertyDefinitionFirst | oak-core/src/main/java/org/apache/jackrabbit/oak/plugins/nodetype/EffectiveNodeType.java:346-352 | with no fitting named definition, the first fitting residual definition is the result, not a later one |
| NodeTypes.TypeIgnoredWithoutExactMatch | oak-core/src/main/java/org/apache/jackrabbit/oak/plugins/nodetype/EffectiveNodeType.java:339-340 | without an exact match the property type does not change the chosen definition |
| NodeTypes.FirstFittingNode | oak-core/src/main/java/org/apache/jackrabbit/oak/plugins/nodetype/EffectiveNodeType.java:368-376 | the first definition whose required primary types the child includes (any when the child's type is not given), None iff none fits |
| NodeTypes.GetNodeDefinition | oak-core/src/main/java/org/apache/jackrabbit/oak/plugins/nodetype/EffectiveNodeType.java:365-390 | a fitting named definition, else a fitting residual one, and a violation iff neither exists |
| NodeTypes.NamedNodeDefinitionFirst | oak-core/src/main/java/org/apache/jackrabbit/oak/plugins/nodetype/EffectiveNodeType.java:368-376 | the first fitting definition named childName is the result whenever one exists |
| NodeTypes.ResidualNodeDefinitionFirst | oak-core/src/main/java/org/apache/jackrabbit/oak/plugins/nodetype/EffectiveNodeType.java:378-386 | with no fitting named definition, the first fitting residual definition is the result |
| NodeTypes.CheckOrderableChildNodes | oak-core/src/main/java/org/apache/jackrabbit/oak/plugins/nodetype/EffectiveNodeType.java:308-316 | succeeds iff some included type has orderable child nodes |
| NodeTypes.MissingProperty | oak-core/src/main/java/org/apache/jackrabbit/oak/plugins/nodetype/EffectiveNodeType.java:291-297 | None iff every mandatory, non-protected property is present, else one that is missing |
| NodeTypes.MissingNode | oak-core/src/main/java/org/apache/jackrabbit/oak/plugins/nodetype/EffectiveNodeType.java:298-304 | None iff every mandatory, non-protected child is present, else one that is missing |
| NodeTypes.CheckMandatoryItems | oak-core/src/main/java/org/apache/jackrabbit/oak/plugins/nodetype/EffectiveNodeType.java:289-306 | succeeds iff no included type has a missing mandatory, non-protected property or child; a violation names a missing one |
| NodeTypeDelegates.ConvertName | oak-jcr/src/main/java/org/apache/jackrabbit/oak/jcr/nodetype/NodeTypeManagerDelegate.java:103-117 | a name without ':' is kept; only a name with ':' can fail |
| NodeTypeDelegates.ConvertPrefixedName | oak-jcr/src/main/java/org/apache/jackrabbit/oak/jcr/nodetype/NodeTypeManagerDelegate.java:107-117 | an unmapped prefix fails; a mapped one becomes the registry's prefix for its URI, ':', and the local part after the first ':' unchanged |
| NodeTypeDelegates.ConvertAfterSetNamespace | oak-jcr/src/main/java/org/apache/jackrabbit/oak/jcr/nodetype/NodeTypeManagerDelegate.java:89-92 | after mapping a prefix, its names convert through the new URI and other prefixes convert as before |
| NodeTypeDelegates.ConvertAgreeingName | oak-jcr/src/main/java/org/apache/jackrabbit/oak/jcr/nodetype/NodeTypeManagerDelegate.java:114-116 | under a mapping that agrees with the registry conversion succeeds and changes nothing |
| NodeTypeDelegates.ConvertNameToOak | oak-jcr/src/main/java/org/apache/jackrabbit/oak/jcr/nodetype/NodeTypeManagerDelegate.java:99-120 | null stays null; otherwise the converted name or its error |
| NodeTypeDelegates.ConvertNames | oak-jcr/src/main/java/org/apache/jackrabbit/oak/jcr/nodetype/NodeTypeManagerDelegate.java:122-128 | succeeds iff every name converts; then the same length and order, element by element |
| NodeTypeDelegates.ConvertProperties | oak-jcr/src/main/java/org/apache/jackrabbit/oak/jcr/nodetype/NodeTypeManagerDelegate.java:175-177 | succeeds iff every definition name converts; then each definition in order with only its name converted |
| NodeTypeDelegates.NamesFailAt | oak-jcr/src/main/java/org/apache/jackrabbit/oak/jcr/nodetype/NodeTypeManagerDelegate.java:122-128 | when every name before position i converts and the name at i does not, the list conversion fails with the error of the name at i |
| NodeTypeDelegates.PropertiesFailAt | oak-jcr/src/main/java/org/apache/jackrabbit/oak/jcr/nodetype/NodeTypeManagerDelegate.java:175-177 | when every definition before position i converts and the one at i does not, the conversion fails with the error of the one at i |
| NodeTypeDelegates.DefinitionBuilderFactory.constructor | oak-jcr/src/main/java/org/apache/jackrabbit/oak/jcr/nodetype/NodeTypeManagerDelegate.java:77 | the namespace mapping starts empty |
| NodeTypeDelegates.DefinitionBuilderFactory.SetNamespace | oak-jcr/src/main/java/org/apache/jackrabbit/oak/jcr/nodetype/NodeTypeManagerDelegate.java:89-92 | the mapping sends the prefix to the URI, other prefixes unchanged |
| NodeTypeDelegates.DefinitionBuilderFactory.SetNamespaceMapping | oak-jcr/src/main/java/org/apache/jackrabbit/oak/jcr/nodetype/NodeTypeManagerDelegate.java:94-97 | the mapping is replaced whole |
| NodeTypeDelegates.DefinitionBuilderFactory.ConvertNamesToOak | oak-jcr/src/main/java/org/apache/jackrabbit/oak/jcr/nodetype/NodeTypeManagerDelegate.java:122-128 | the loop's result is the element-wise conversion |
| NodeTypeDelegates.DefinitionBuilderFactory.ConvertPropertyNames | oak-jcr/src/main/java/org/apache/jackrabbit/oak/jcr/nodetype/NodeTypeManagerDelegate.java:175-177 | the loop's result is the in-order conversion of the property definitions |
| NodeTypeDelegates.Assemble | oak-jcr/src/main/java/org/apache/jackrabbit/oak/jcr/nodetype/NodeTypeManagerDelegate.java:166-184 | succeeds iff name, supertypes, primary item name and property names all convert; then each is the converted one, in order, and child definitions are copied as they are |
| NodeTypeDelegates.NodeTypeDefinitionBuilder.constructor | oak-jcr/src/main/java/org/apache/jackrabbit/oak/jcr/nodetype/NodeTypeManagerDelegate.java:141-143 | an empty builder bound to its factory |
| NodeTypeDelegates.NodeTypeDefinitionBuilder.AddSupertype | oak-jcr/src/main/java/org/apache/jackrabbit/oak/jcr/nodetype/NodeTypeManagerDelegate.java:146-148 | appends the supertype, nothing else changes |
| NodeTypeDelegates.NodeTypeDefinitionBuilder.SetPrimaryItemName | oak-jcr/src/main/java/org/apache/jackrabbit/oak/jcr/nodetype/NodeTypeManagerDelegate.java:151-153 | sets the primary item name, nothing else changes |
| NodeTypeDelegates.NodeTypeDefinitionBuilder.AddPropertyDefinition | oak-jcr/src/main/java/org/apache/jackrabbit/oak/jcr/nodetype/NodeTypeManagerDelegate.java:186-188 | appends the property definition, nothing else changes |
| NodeTypeDelegates.NodeTypeDefinitionBuilder.AddNodeDefinition | oak-jcr/src/main/java/org/apache/jackrabbit/oak/jcr/nodetype/NodeTypeManagerDelegate.java:190-192 | appends the child definition, nothing else changes |
| NodeTypeDelegates.NodeTypeDefinitionBuilder.Build | oak-jcr/src/main/java/org/apache/jackrabbit/oak/jcr/nodetype/NodeTypeManagerDelegate.java:166-184 | the result is the assembled description; name, supertypes and primary item name are written back converted as far as conversion got |
| NodeTypeDelegates.PropertyDefinitionBuilder.constructor | oak-jcr/src/main/java/org/apache/jackrabbit/oak/jcr/nodetype/NodeTypeManagerDelegate.java:245-247 | an empty builder bound to its type builder |
| NodeTypeDelegates.PropertyDefinitionBuilder.Description | oak-jcr/src/main/java/org/apache/jackrabbit/oak/jcr/nodetype/NodeTypeManagerDelegate.java:249-262 | the description carries the builder's name, flags, type and default values |
| NodeTypeDelegates.PropertyDefinitionBuilder.AddValueConstraint | oak-jcr/src/main/java/org/apache/jackrabbit/oak/jcr/nodetype/NodeTypeManagerDelegate.java:265-267 | appends the constraint; the description is unchanged |
| NodeTypeDelegates.PropertyDefinitionBuilder.AddDefaultValues | oak-jcr/src/main/java/org/apache/jackrabbit/oak/jcr/nodetype/NodeTypeManagerDelegate.java:270-272 | appends the default value, nothing else changes |
| NodeTypeDelegates.PropertyDefinitionBuilder.SetDeclaringNodeType | oak-jcr/src/main/java/org/apache/jackrabbit/oak/jcr/nodetype/NodeTypeManagerDelegate.java:275-277 | records the declaring type; the description is unchanged |
| NodeTypeDelegates.PropertyDefinitionBuilder.Build | oak-jcr/src/main/java/org/apache/jackrabbit/oak/jcr/nodetype/NodeTypeManagerDelegate.java:280-282 | registers the description at the end of the owner's property definitions, nothing else of the owner changes |
| NodeTypeDelegates.NodeDefinitionBuilder.constructor | oak-jcr/src/main/java/org/apache/jackrabbit/oak/jcr/nodetype/NodeTypeManagerDelegate.java:207-209 | an empty builder bound to its type builder |
| NodeTypeDelegates.NodeDefinitionBuilder.Description | oak-jcr/src/main/java/org/apache/jackrabbit/oak/jcr/nodetype/NodeTypeManagerDelegate.java:211-214 | the description carries the builder's name, flags, required and default primary types |
| NodeTypeDelegates.NodeDefinitionBuilder.AddRequiredPrimaryType | oak-jcr/src/main/java/org/apache/jackrabbit/oak/jcr/nodetype/NodeTypeManagerDelegate.java:222-224 | appends the required primary type, nothing else changes |
| NodeTypeDelegates.NodeDefinitionBuilder.SetDefaultPrimaryType | oak-jcr/src/main/java/org/apache/jackrabbit/oak/jcr/nodetype/NodeTypeManagerDelegate.java:217-219 | sets the default primary type, nothing else changes |
| NodeTypeDelegates.NodeDefinitionBuilder.SetDeclaringNodeType | oak-jcr/src/main/java/org/apache/jackrabbit/oak/jcr/nodetype/NodeTypeManagerDelegate.java:227-229 | records the declaring type; the description is unchanged |
| NodeTypeDelegates.NodeDefinitionBuilder.Build | oak-jcr/src/main/java/org/apache/jackrabbit/oak/jcr/nodetype/NodeTypeManagerDelegate.java:232-234 | registers the description at the end of the owner's child definitions, nothing else of the owner changes |

## Left out

- MongoDB I/O, write concerns and the compare-and-swap retry of revision
  allocation are not modelled. Commits run one at a time. A rejected write
  is the `failAt` parameter of `Execute`, and the commit record is its last
  write.
- Resolution.ResolveIn: each node is read from its own document only.
  Removing a node does not hide its descendants: after `/a/b` is created
  and `/a` removed, `/a/b` still reads as present. A node added under a
  missing parent is readable while the parent is not. GetNodesCommandMongo
  is not part of this model, so whether it walks down from the root is
  not captured.
- CommitCommandMongo, GetNodesCommandMongo, MongoAssert, NodeBuilder,
  SimpleNodeScenario, UpdateOp, Revision and Utils are not part of this
  model.
  - The simple scenario's commits (`CreateCommit`, `UpdateAAndAddDAndE`)
    are inferred from the trees the tests assert.
  - `Utils.pathDepth` is assumed to count path segments, with `/` at depth 0.
  - A revision renders as its decimal counter value.
- JSON rendering is not modelled (`Node.toString`, `Node.append`, JSOP
  diffs, the JSON text of property values). Property values are opaque
  strings.
- The two ignored tests are not modelled, because their outcome is
  unresolved in the source. Removing a node that does not exist is
  idempotent here: it appends a "dead" entry and does not fail. There is
  a single root, the empty segment list, rendered `/`; the path `""` is
  never used.
- The filter getters of EffectiveNodeType are covered only through the
  definition searches that use them: the auto-created, mandatory, named
  and residual definitions.
- `checkSetProperty`, `checkRemoveProperty` and `getDefinition` are not
  modelled, because they depend on foreign `NodeType` calls and on
  `PropertyState`.
- `onParentVersion` is not modelled.
- Definition names are compared as plain strings. The `instanceof
  ItemDefinitionImpl` test of DefinitionNamePredicate is not modelled.
- NodeTypes.CheckMandatoryItems: it reads each type's own definition lists.
  The source uses the getters here and the internal getters elsewhere. Both
  are modelled by one list per type.
- NodeTypes.AddType: the FIXME casts are not modelled. A supertype is
  always a node type the model knows. A failing `nt:base` lookup is
  modelled as its absence.
- NodeTypeDelegates.ConvertName: an unregistered namespace URI is modelled
  as an error, the way the registry's `getPrefix` would fail.
- NodeTypeDelegates.PropertyDefinitionBuilder.Description: it does not
  convert default values (`cvf.createValue`), does not write the converted
  property name back into the builder, and drops value constraints and the
  declaring node type, as the source's delegate does.
- NodeTypeDelegates.PropertyDefinitionBuilder.Build: it registers a
  snapshot of the builder, not the builder itself. A change made to a
  property or node definition builder after its `build` is therefore not
  seen by the type builder.
- NodeTypeDelegates.NodeDefinitionBuilder.Description: child definition
  names and required types are not converted, as in the source.
- The CND parsing (`CompactNodeTypeDefReader`) and the registration of the
  built types are not modelled.
