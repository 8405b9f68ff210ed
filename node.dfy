/**
 * The in-memory node of the MongoDB prototype store (Node.java): a path,
 * the revision it was read or written at, and a mutable property map;
 * plus the document id encoding and the update operation that writes the
 * node's properties into its document.
 */
module PrototypeNode {
  import opened Wrappers
  import opened Strings

  /**
   * Depth of a path: the number of '/' characters, with "/" itself at
   * depth 0. Utils.pathDepth is not part of this model; this is the
   * segment count it is assumed to compute.
   */
  function PathDepth(path: string): nat
  {
    if path == "/" then 0 else Count(path, '/')
  }

  /** The document id of a path: its decimal depth, ':' and the path unchanged. */
  function ConvertPathToDocumentId(path: string): (id: string)
    ensures ':' in id
  {
    NatToString(PathDepth(path)) + ":" + path
  }

  /** Reads a document id back into its depth and its path. */
  function ParseDocumentId(id: string): Option<(nat, string)>
  {
    match IndexOf(id, ':')
    case None => None
    case Some(i) =>
      match ParseNat(id[..i])
      case None => None
      case Some(depth) => Some((depth, id[i + 1..]))
  }

  /** The path, and its depth, are recoverable from the document id. */
  lemma DocumentIdRoundTrip(path: string)
    ensures ParseDocumentId(ConvertPathToDocumentId(path)) == Some((PathDepth(path), path))
  {
    var digits := NatToString(PathDepth(path));
    var id := ConvertPathToDocumentId(path);
    NoColonInDecimal(PathDepth(path));
    IndexOfAfterPrefix(digits, ':', path);
    assert id[..|digits|] == digits;
    assert id[|digits| + 1..] == path;
    ParseNatToString(PathDepth(path));
  }

  /** Distinct paths have distinct document ids. */
  lemma DocumentIdInjective(p: string, q: string)
    requires ConvertPathToDocumentId(p) == ConvertPathToDocumentId(q)
    ensures p == q
  {
    DocumentIdRoundTrip(p);
    DocumentIdRoundTrip(q);
  }

  /**
   * The sub-key under which a property value is stored for a revision
   * (rev.toString()). The Revision class is not part of this model;
   * revisions are the counter values of the commit protocol and render
   * in decimal.
   */
  function RevisionKey(rev: nat): string
  {
    NatToString(rev)
  }

  /**
   * An update operation on one document (UpdateOp is not part of this
   * model): the requested `set`s, `increment`s and map-entry writes,
   * each kept by key.
   */
  datatype UpdateOp = UpdateOp(
    id: string,
    isNew: bool,
    sets: map<string, string>,
    increments: map<string, int>,
    mapEntries: map<string, map<string, string>>)
  {
    function Set(key: string, value: string): UpdateOp
    {
      this.(sets := sets[key := value])
    }

    function Increment(key: string, delta: int): UpdateOp
    {
      this.(increments := increments[key := delta])
    }

    function AddMapEntry(property: string, subKey: string, value: string): UpdateOp
    {
      var entries := if property in mapEntries then mapEntries[property] else map[];
      this.(mapEntries := mapEntries[property := entries[subKey := value]])
    }
  }

  function NewUpdateOp(id: string, isNew: bool): UpdateOp
  {
    UpdateOp(id, isNew, map[], map[], map[])
  }

  class Node {
    const path: string
    const rev: nat
    var properties: map<string, string>

    constructor (path: string, rev: nat)
      ensures this.path == path && this.rev == rev
      ensures forall name :: GetProperty(name) == None
    {
      this.path := path;
      this.rev := rev;
      properties := map[];
    }

    method SetProperty(propertyName: string, value: string)
      modifies this
      ensures properties == old(properties)[propertyName := value]
      ensures GetProperty(propertyName) == Some(value)
      ensures forall other :: other != propertyName ==> GetProperty(other) == old(GetProperty(other))
    {
      properties := properties[propertyName := value];
    }

    /** The stored value, or None (null) for a property never set. */
    function GetProperty(propertyName: string): (v: Option<string>)
      reads this
      ensures v.Some? <==> propertyName in properties
      ensures v.Some? ==> v.value == properties[propertyName]
    {
      if propertyName in properties then Some(properties[propertyName]) else None
    }

    /**
     * The operation that writes this node into its document: the id, the
     * `_id` field, a change-count bump for an existing document, and one
     * map entry per property under this node's revision.
     */
    method AsOperation(isNew: bool) returns (op: UpdateOp)
      ensures op.id == ConvertPathToDocumentId(path) && op.isNew == isNew
      ensures op.sets == map["_id" := op.id]
      ensures op.increments == if isNew then map[] else map["_changeCount" := 1]
      ensures op.mapEntries.Keys == properties.Keys
      ensures forall p :: p in properties ==> op.mapEntries[p] == map[RevisionKey(rev) := properties[p]]
    {
      var id := ConvertPathToDocumentId(path);
      op := NewUpdateOp(id, isNew);
      op := op.Set("_id", id);
      if !isNew {
        op := op.Increment("_changeCount", 1);
      }
      var pending := properties.Keys;
      while pending != {}
        invariant pending <= properties.Keys
        invariant op.id == id && op.isNew == isNew
        invariant op.sets == map["_id" := id]
        invariant op.increments == if isNew then map[] else map["_changeCount" := 1]
        invariant op.mapEntries.Keys == properties.Keys - pending
        invariant forall p :: p in op.mapEntries ==> op.mapEntries[p] == map[RevisionKey(rev) := properties[p]]
        decreases pending
      {
        var p :| p in pending;
        op := op.AddMapEntry(p, RevisionKey(rev), properties[p]);
        pending := pending - {p};
      }
    }
  }

  /** Every sub-key written by AsOperation reads back as the node's revision. */
  lemma OperationRevisionKeys(op: UpdateOp, rev: nat, p: string, subKey: string)
    requires p in op.mapEntries && op.mapEntries[p].Keys == {RevisionKey(rev)}
    requires subKey in op.mapEntries[p]
    ensures ParseNat(subKey) == Some(rev)
  {
    ParseNatToString(rev);
  }
}
