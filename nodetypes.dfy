/**
 * Effective node types: the insertion-ordered, duplicate-free collection of
 * node types that a node carries (its primary type, its mixins and the
 * supertypes pulled in with them), the inclusion queries over it and the
 * rules that pick the definition applying to a property or a child node.
 */
module NodeTypes {
  import opened Wrappers

  const NT_BASE: string := "nt:base"
  const RESIDUAL_NAME: string := "*"
  /** The property type code that matches every type. */
  const UNDEFINED: int := 0

  datatype PropertyDefinition = PropertyDefinition(
    name: string, requiredType: int, isMultiple: bool,
    isMandatory: bool, isProtected: bool, isAutoCreated: bool)

  datatype NodeDefinition = NodeDefinition(
    name: string, requiredPrimaryTypeNames: seq<string>,
    isMandatory: bool, isProtected: bool, isAutoCreated: bool)

  /**
   * A node type as the type manager hands it out. The definition lists are
   * the ones the type reports for itself, inherited ones included.
   */
  datatype NodeType = NodeType(
    name: string, declaredSupertypes: seq<NodeType>,
    isMixin: bool, isAbstract: bool, hasOrderableChildNodes: bool,
    propertyDefinitions: seq<PropertyDefinition>,
    childNodeDefinitions: seq<NodeDefinition>)

  datatype ConstraintViolation =
    | NoPropertyDefinition(propertyName: string)
    | NoNodeDefinition(childName: string)
    | MandatoryPropertyMissing(itemName: string, typeName: string)
    | MandatoryNodeMissing(itemName: string, typeName: string)
    | OrderingNotSupported

  /** A node type is of type `n` when it is named `n` or one of its supertypes is. */
  predicate IsNodeType(t: NodeType, n: string)
    decreases t
  {
    t.name == n ||
    exists i :: 0 <= i < |t.declaredSupertypes| && IsNodeType(t.declaredSupertypes[i], n)
  }

  function Names(types: seq<NodeType>): (names: seq<string>)
    ensures |names| == |types|
    ensures forall i :: 0 <= i < |types| ==> names[i] == types[i].name
  {
    if |types| == 0 then [] else Names(types[..|types| - 1]) + [types[|types| - 1].name]
  }

  predicate Distinct(names: seq<string>) {
    forall i, j :: 0 <= i < j < |names| ==> names[i] != names[j]
  }

  lemma NamesOfPrefix(a: seq<NodeType>, b: seq<NodeType>)
    requires a <= b
    ensures forall n :: n in Names(a) ==> n in Names(b)
  {
    forall n | n in Names(a)
      ensures n in Names(b)
    {
      var i :| 0 <= i < |a| && Names(a)[i] == n;
      assert Names(b)[i] == n;
    }
  }

  lemma DistinctAppend(names: seq<string>, n: string)
    requires n !in names
    ensures Distinct(names) ==> Distinct(names + [n])
  {
  }

  /** The type the manager registers under `name`, if any (the first one). */
  function Lookup(registry: seq<NodeType>, name: string): (r: Option<NodeType>)
    ensures r.None? <==> name !in Names(registry)
    ensures r.Some? ==> r.value.name == name && r.value in registry
  {
    if |registry| == 0 then None
    else if registry[0].name == name then Some(registry[0])
    else
      var r := Lookup(registry[1..], name);
      assert forall i :: 1 <= i < |registry| ==> Names(registry)[i] == Names(registry[1..])[i - 1];
      r
  }

  /** nt:base as found by the manager; absent when the manager does not know it. */
  predicate IsBase(base: Option<NodeType>) {
    base.Some? ==> base.value.name == NT_BASE
  }

  /**
   * Decreases while types are being added: once nt:base is present no further
   * lookup of nt:base happens, and a lookup of it lowers the rank from 2 to 1.
   */
  function Rank(types: seq<NodeType>, t: NodeType): nat {
    if NT_BASE in Names(types) then 0 else if t.name == NT_BASE then 1 else 2
  }

  /** A type already present outranks nothing it names as a supertype. */
  lemma RankOfSupertype(types: seq<NodeType>, t: NodeType, st: NodeType)
    requires t.name in Names(types)
    ensures Rank(types, st) <= Rank(types, t)
  {
  }

  /** One step of adding the declared supertypes: the type stays present and its rank does not grow. */
  lemma SupertypeStep(types: seq<NodeType>, t: NodeType, i: nat, base: Option<NodeType>)
    requires IsBase(base) && i < |t.declaredSupertypes| && t.name in Names(types)
    ensures var next := AddType(types, t.declaredSupertypes[i], base);
      && t.name in Names(next)
      && Rank(next, t) <= Rank(types, t)
      && AddSupertypes(next, t, i + 1, base) == AddSupertypes(types, t, i, base)
  {
    var next := AddType(types, t.declaredSupertypes[i], base);
    NamesOfPrefix(types, next);
    RankNeverGrows(types, next, t);
  }

  /** Adding types never raises the rank of a type already present. */
  lemma RankNeverGrows(a: seq<NodeType>, b: seq<NodeType>, t: NodeType)
    requires a <= b
    ensures Rank(b, t) <= Rank(a, t)
  {
    NamesOfPrefix(a, b);
  }

  /**
   * Adds a node type: nothing happens when its name is present; otherwise it
   * is appended and, when it has several declared supertypes, each of them is
   * added, while with one or none a non-mixin pulls in nt:base.
   */
  function AddType(types: seq<NodeType>, t: NodeType, base: Option<NodeType>): (r: seq<NodeType>)
    requires IsBase(base)
    decreases Rank(types, t), t, 1, 0
    ensures types <= r && t.name in Names(r)
    ensures t.name in Names(types) ==> r == types
    ensures t.name !in Names(types) ==> r[|types|] == t
    ensures t.name !in Names(types) && |t.declaredSupertypes| <= 1 && !t.isMixin && base.Some? ==>
      NT_BASE in Names(r)
    ensures Distinct(Names(types)) ==> Distinct(Names(r))
  {
    if t.name in Names(types) then types
    else
      var added := types + [t];
      assert Names(added) == Names(types) + [t.name];
      DistinctAppend(Names(types), t.name);
      if |t.declaredSupertypes| > 1 then
        var r := AddSupertypes(added, t, 0, base);
        ExtendsAdded(types, t, r);
        r
      else if !t.isMixin && NT_BASE !in Names(added) && base.Some? then
        var r := AddType(added, base.value, base);
        ExtendsAdded(types, t, r);
        r
      else
        added
  }

  /** What extends `types + [t]` extends `types` and holds `t` right after it. */
  lemma ExtendsAdded(types: seq<NodeType>, t: NodeType, r: seq<NodeType>)
    requires types + [t] <= r
    ensures types <= r && r[|types|] == t && t.name in Names(r)
  {
    assert Names(r)[|types|] == t.name;
  }

  /** Adds the declared supertypes of `t` from index `i` on, in order. */
  function AddSupertypes(types: seq<NodeType>, t: NodeType, i: nat, base: Option<NodeType>): (r: seq<NodeType>)
    requires IsBase(base) && i <= |t.declaredSupertypes| && t.name in Names(types)
    decreases Rank(types, t), t, 0, |t.declaredSupertypes| - i
    ensures types <= r
    ensures Distinct(Names(types)) ==> Distinct(Names(r))
  {
    if i == |t.declaredSupertypes| then types
    else
      var next := AddType(types, t.declaredSupertypes[i], base);
      NamesOfPrefix(types, next);
      AddSupertypes(next, t, i + 1, base)
  }

  lemma {:induction false} SupertypesAdded(types: seq<NodeType>, t: NodeType, i: nat, base: Option<NodeType>)
    requires IsBase(base) && i <= |t.declaredSupertypes| && t.name in Names(types)
    decreases |t.declaredSupertypes| - i
    ensures forall j :: i <= j < |t.declaredSupertypes| ==>
      t.declaredSupertypes[j].name in Names(AddSupertypes(types, t, i, base))
  {
    if i < |t.declaredSupertypes| {
      var next := AddType(types, t.declaredSupertypes[i], base);
      NamesOfPrefix(types, next);
      SupertypesAdded(next, t, i + 1, base);
      NamesOfPrefix(next, AddSupertypes(next, t, i + 1, base));
    }
  }

  /** A newly added type with several declared supertypes brings every one of them in. */
  lemma AddTypeSupertypes(types: seq<NodeType>, t: NodeType, base: Option<NodeType>)
    requires IsBase(base) && t.name !in Names(types) && |t.declaredSupertypes| > 1
    ensures forall i :: 0 <= i < |t.declaredSupertypes| ==>
      t.declaredSupertypes[i].name in Names(AddType(types, t, base))
  {
    assert Names(types + [t]) == Names(types) + [t.name];
    assert AddType(types, t, base) == AddSupertypes(types + [t], t, 0, base);
    SupertypesAdded(types + [t], t, 0, base);
  }

  /** Adds each type of `ts` in order. */
  function AddTypes(types: seq<NodeType>, ts: seq<NodeType>, base: Option<NodeType>): (r: seq<NodeType>)
    requires IsBase(base)
    ensures types <= r
    ensures forall i :: 0 <= i < |ts| ==> ts[i].name in Names(r)
    ensures Distinct(Names(types)) ==> Distinct(Names(r))
  {
    if |ts| == 0 then types
    else
      var before := AddTypes(types, ts[..|ts| - 1], base);
      var r := AddType(before, ts[|ts| - 1], base);
      NamesOfPrefix(before, r);
      assert forall i :: 0 <= i < |ts| - 1 ==> ts[i] == ts[..|ts| - 1][i];
      r
  }

  /** The types an effective node type built from `primary` and `mixins` holds. */
  function Effective(primary: NodeType, mixins: seq<NodeType>, registry: seq<NodeType>): seq<NodeType>
  {
    AddTypes(AddType([], primary, Lookup(registry, NT_BASE)), mixins, Lookup(registry, NT_BASE))
  }

  /**
   * The effective node type holds the primary type first, every mixin, no
   * name twice, and nt:base whenever the primary type is a non-mixin with at
   * most one declared supertype and the manager knows nt:base.
   */
  lemma EffectiveContents(primary: NodeType, mixins: seq<NodeType>, registry: seq<NodeType>)
    ensures var types := Effective(primary, mixins, registry);
      && |types| > 0 && types[0] == primary
      && (forall i :: 0 <= i < |mixins| ==> mixins[i].name in Names(types))
      && Distinct(Names(types))
      && (!primary.isMixin && |primary.declaredSupertypes| <= 1 && NT_BASE in Names(registry)
          ==> NT_BASE in Names(types))
  {
    var base := Lookup(registry, NT_BASE);
    var first := AddType([], primary, base);
    NamesOfPrefix(first, Effective(primary, mixins, registry));
  }

  /** The effective node type of a node, filled in place as in the source. */
  class EffectiveNodeType {
    var nodeTypes: seq<NodeType>
    /** The node types the manager knows; it supplies nt:base and mixin lookups. */
    const registry: seq<NodeType>

    constructor (primary: NodeType, mixins: seq<NodeType>, registry: seq<NodeType>)
      ensures this.registry == registry
      ensures nodeTypes == Effective(primary, mixins, registry)
    {
      this.registry := registry;
      nodeTypes := [];
      new;
      var base := Lookup(registry, NT_BASE);
      AddNodeType(primary);
      var first := nodeTypes;
      for k := 0 to |mixins|
        invariant nodeTypes == AddTypes(first, mixins[..k], base)
      {
        AddNodeType(mixins[k]);
        assert mixins[..k + 1][..k] == mixins[..k];
      }
      assert mixins[..|mixins|] == mixins;
    }

    /** Adds `t` as the recursive addNodeType does. */
    method AddNodeType(t: NodeType)
      modifies this
      decreases Rank(nodeTypes, t), t, 1
      ensures nodeTypes == AddType(old(nodeTypes), t, Lookup(registry, NT_BASE))
    {
      var base := Lookup(registry, NT_BASE);
      if t.name in Names(nodeTypes) {
        return;
      }
      ghost var start := nodeTypes;
      nodeTypes := nodeTypes + [t];
      assert Names(nodeTypes) == Names(start) + [t.name];
      if |t.declaredSupertypes| > 1 {
        AddDeclaredSupertypes(t);
      } else if !t.isMixin && NT_BASE !in Names(nodeTypes) && base.Some? {
        AddNodeType(base.value);
      }
    }

    /** The loop of addNodeType over the declared supertypes of `t`. */
    method AddDeclaredSupertypes(t: NodeType)
      requires t.name in Names(nodeTypes)
      modifies this
      decreases Rank(nodeTypes, t), t, 0
      ensures nodeTypes == AddSupertypes(old(nodeTypes), t, 0, Lookup(registry, NT_BASE))
    {
      var base := Lookup(registry, NT_BASE);
      ghost var start := nodeTypes;
      var i := 0;
      while i < |t.declaredSupertypes|
        invariant 0 <= i <= |t.declaredSupertypes|
        invariant t.name in Names(nodeTypes)
        invariant Rank(nodeTypes, t) <= Rank(start, t)
        invariant AddSupertypes(nodeTypes, t, i, base) == AddSupertypes(start, t, 0, base)
      {
        ghost var before := nodeTypes;
        var st := t.declaredSupertypes[i];
        RankOfSupertype(nodeTypes, t, st);
        AddNodeType(st);
        SupertypeStep(before, t, i, base);
        i := i + 1;
      }
    }
  }

  /** True iff some included type is of type `name` (includesNodeType). */
  function IncludesNodeType(types: seq<NodeType>, name: string): (b: bool)
    ensures b <==> exists i :: 0 <= i < |types| && IsNodeType(types[i], name)
  {
    if |types| == 0 then false
    else if IsNodeType(types[0], name) then true
    else
      var b := IncludesNodeType(types[1..], name);
      assert forall i :: 1 <= i < |types| ==> types[i] == types[1..][i - 1];
      b
  }

  /** True iff every name of `names` is included; true for no names (includesNodeTypes). */
  function IncludesNodeTypes(types: seq<NodeType>, names: seq<string>): (b: bool)
    ensures b <==> forall k :: 0 <= k < |names| ==> IncludesNodeType(types, names[k])
  {
    if |names| == 0 then true
    else if !IncludesNodeType(types, names[0]) then false
    else
      var b := IncludesNodeTypes(types, names[1..]);
      assert forall k :: 1 <= k < |names| ==> names[k] == names[1..][k - 1];
      b
  }

  /**
   * supportsMixin: an included type is supported; a type the manager knows
   * is supported only when it is a non-abstract mixin; an unknown name is
   * supported.
   */
  function SupportsMixin(types: seq<NodeType>, registry: seq<NodeType>, mixin: string): (b: bool)
    ensures IncludesNodeType(types, mixin) ==> b
    ensures !IncludesNodeType(types, mixin) && mixin in Names(registry) ==>
      (b <==> Lookup(registry, mixin).value.isMixin && !Lookup(registry, mixin).value.isAbstract)
    ensures mixin !in Names(registry) ==> b
  {
    if IncludesNodeType(types, mixin) then true
    else
      match Lookup(registry, mixin)
      case None => true
      case Some(m) => m.isMixin && !m.isAbstract
  }

  /**
   * The effective node type answers inclusion queries for everything the
   * primary type is, and for every mixin's name; a mixin is therefore
   * always supported again.
   */
  lemma EffectiveIncludes(primary: NodeType, mixins: seq<NodeType>, registry: seq<NodeType>, name: string)
    ensures IsNodeType(primary, name) ==> IncludesNodeType(Effective(primary, mixins, registry), name)
    ensures forall i :: 0 <= i < |mixins| ==>
      IncludesNodeType(Effective(primary, mixins, registry), mixins[i].name) &&
      SupportsMixin(Effective(primary, mixins, registry), registry, mixins[i].name)
  {
    var types := Effective(primary, mixins, registry);
    EffectiveContents(primary, mixins, registry);
    forall i | 0 <= i < |mixins|
      ensures IncludesNodeType(types, mixins[i].name)
    {
      var k :| 0 <= k < |types| && Names(types)[k] == mixins[i].name;
      assert IsNodeType(types[k], mixins[i].name);
    }
  }

  /** Every included type's property definitions, type by type in insertion order. */
  function PropertyDefinitions(types: seq<NodeType>): (defs: seq<PropertyDefinition>)
    ensures forall d :: d in defs <==> exists i :: 0 <= i < |types| && d in types[i].propertyDefinitions
    ensures |types| > 0 ==> defs == PropertyDefinitions(types[..|types| - 1]) + types[|types| - 1].propertyDefinitions
  {
    if |types| == 0 then []
    else
      var defs := PropertyDefinitions(types[..|types| - 1]) + types[|types| - 1].propertyDefinitions;
      assert forall i :: 0 <= i < |types| - 1 ==> types[i] == types[..|types| - 1][i];
      defs
  }

  /** Every included type's child node definitions, type by type in insertion order. */
  function NodeDefinitions(types: seq<NodeType>): (defs: seq<NodeDefinition>)
    ensures forall d :: d in defs <==> exists i :: 0 <= i < |types| && d in types[i].childNodeDefinitions
    ensures |types| > 0 ==> defs == NodeDefinitions(types[..|types| - 1]) + types[|types| - 1].childNodeDefinitions
  {
    if |types| == 0 then []
    else
      var defs := NodeDefinitions(types[..|types| - 1]) + types[|types| - 1].childNodeDefinitions;
      assert forall i :: 0 <= i < |types| - 1 ==> types[i] == types[..|types| - 1][i];
      defs
  }

  /**
   * The definition lists follow the insertion order of the types: the
   * definitions of a later type come after those of every earlier one.
   */
  lemma {:induction false} PropertyDefinitionsAppend(a: seq<NodeType>, b: seq<NodeType>)
    ensures PropertyDefinitions(a + b) == PropertyDefinitions(a) + PropertyDefinitions(b)
    decreases |b|
  {
    if |b| > 0 {
      var front := b[..|b| - 1];
      assert (a + b)[..|a + b| - 1] == a + front;
      assert b[..|b| - 1] == front;
      PropertyDefinitionsAppend(a, front);
    } else {
      assert a + b == a;
    }
  }

  lemma {:induction false} NodeDefinitionsAppend(a: seq<NodeType>, b: seq<NodeType>)
    ensures NodeDefinitions(a + b) == NodeDefinitions(a) + NodeDefinitions(b)
    decreases |b|
  {
    if |b| > 0 {
      var front := b[..|b| - 1];
      assert (a + b)[..|a + b| - 1] == a + front;
      assert b[..|b| - 1] == front;
      NodeDefinitionsAppend(a, front);
    } else {
      assert a + b == a;
    }
  }

  /** A property definition named `name` fits a property of this multiplicity and type. */
  predicate PropertyFits(d: PropertyDefinition, name: string, isMultiple: bool, propertyType: int, exactTypeMatch: bool) {
    d.name == name && d.isMultiple == isMultiple &&
    (!exactTypeMatch || propertyType == d.requiredType || propertyType == UNDEFINED || d.requiredType == UNDEFINED)
  }

  /** The index of the first definition in `defs` that fits, if any. */
  function FirstFittingProperty(defs: seq<PropertyDefinition>, name: string, isMultiple: bool, propertyType: int, exactTypeMatch: bool): (r: Option<nat>)
    ensures r.None? <==> forall j :: 0 <= j < |defs| ==> !PropertyFits(defs[j], name, isMultiple, propertyType, exactTypeMatch)
    ensures r.Some? ==> r.value < |defs| && PropertyFits(defs[r.value], name, isMultiple, propertyType, exactTypeMatch)
    ensures r.Some? ==> forall j :: 0 <= j < r.value ==> !PropertyFits(defs[j], name, isMultiple, propertyType, exactTypeMatch)
  {
    if |defs| == 0 then None
    else if PropertyFits(defs[0], name, isMultiple, propertyType, exactTypeMatch) then Some(0)
    else
      var r := FirstFittingProperty(defs[1..], name, isMultiple, propertyType, exactTypeMatch);
      assert forall j :: 1 <= j < |defs| ==> defs[j] == defs[1..][j - 1];
      if r.None? then None else Some(r.value + 1)
  }

  /**
   * getPropertyDefinition: the first definition named `name` that fits,
   * otherwise the first fitting residual definition, otherwise a violation.
   */
  function GetPropertyDefinition(types: seq<NodeType>, name: string, isMultiple: bool, propertyType: int, exactTypeMatch: bool): (r: Result<PropertyDefinition, ConstraintViolation>)
    ensures r.Failure? <==>
      forall d :: d in PropertyDefinitions(types) ==>
        !PropertyFits(d, name, isMultiple, propertyType, exactTypeMatch) &&
        !PropertyFits(d, RESIDUAL_NAME, isMultiple, propertyType, exactTypeMatch)
    ensures r.Failure? ==> r.error == NoPropertyDefinition(name)
    ensures r.Success? ==> r.value in PropertyDefinitions(types)
    ensures r.Success? && r.value.name == name ==> PropertyFits(r.value, name, isMultiple, propertyType, exactTypeMatch)
    ensures r.Success? && r.value.name != name ==>
      r.value.name == RESIDUAL_NAME && PropertyFits(r.value, RESIDUAL_NAME, isMultiple, propertyType, exactTypeMatch) &&
      forall d :: d in PropertyDefinitions(types) ==> !PropertyFits(d, name, isMultiple, propertyType, exactTypeMatch)
  {
    var defs := PropertyDefinitions(types);
    match FirstFittingProperty(defs, name, isMultiple, propertyType, exactTypeMatch)
    case Some(i) => Success(defs[i])
    case None =>
      match FirstFittingProperty(defs, RESIDUAL_NAME, isMultiple, propertyType, exactTypeMatch)
      case Some(i) => Success(defs[i])
      case None => Failure(NoPropertyDefinition(name))
  }

  /**
   * The named definition wins over residual ones and over later named ones:
   * the result is the first fitting definition named `name` whenever there
   * is one.
   */
  lemma {:induction false} NamedDefinitionFirst(types: seq<NodeType>, name: string, isMultiple: bool, propertyType: int, exactTypeMatch: bool, k: nat)
    requires k < |PropertyDefinitions(types)|
    requires PropertyFits(PropertyDefinitions(types)[k], name, isMultiple, propertyType, exactTypeMatch)
    requires forall j :: 0 <= j < k ==> !PropertyFits(PropertyDefinitions(types)[j], name, isMultiple, propertyType, exactTypeMatch)
    ensures GetPropertyDefinition(types, name, isMultiple, propertyType, exactTypeMatch) == Success(PropertyDefinitions(types)[k])
  {
    var defs := PropertyDefinitions(types);
    var r := FirstFittingProperty(defs, name, isMultiple, propertyType, exactTypeMatch);
    assert r.Some?;
  }

  /**
   * With no fitting definition named `name`, the first fitting residual
   * definition is the result, even when later residual ones fit too.
   */
  lemma {:induction false} ResidualPropertyDefinitionFirst(types: seq<NodeType>, name: string, isMultiple: bool, propertyType: int, exactTypeMatch: bool, k: nat)
    requires forall j :: 0 <= j < |PropertyDefinitions(types)| ==> !PropertyFits(PropertyDefinitions(types)[j], name, isMultiple, propertyType, exactTypeMatch)
    requires k < |PropertyDefinitions(types)|
    requires PropertyFits(PropertyDefinitions(types)[k], RESIDUAL_NAME, isMultiple, propertyType, exactTypeMatch)
    requires forall j :: 0 <= j < k ==> !PropertyFits(PropertyDefinitions(types)[j], RESIDUAL_NAME, isMultiple, propertyType, exactTypeMatch)
    ensures GetPropertyDefinition(types, name, isMultiple, propertyType, exactTypeMatch) == Success(PropertyDefinitions(types)[k])
  {
    var defs := PropertyDefinitions(types);
    assert FirstFittingProperty(defs, name, isMultiple, propertyType, exactTypeMatch).None?;
    var r := FirstFittingProperty(defs, RESIDUAL_NAME, isMultiple, propertyType, exactTypeMatch);
    assert r == Some(k);
  }

  /**
   * Without an exact type match the property type plays no part: the
   * definition chosen for one type is the one chosen for every other.
   */
  lemma {:induction false} TypeIgnoredWithoutExactMatch(defs: seq<PropertyDefinition>, name: string, isMultiple: bool, t1: int, t2: int)
    ensures FirstFittingProperty(defs, name, isMultiple, t1, false) == FirstFittingProperty(defs, name, isMultiple, t2, false)
  {
    if |defs| > 0 {
      TypeIgnoredWithoutExactMatch(defs[1..], name, isMultiple, t1, t2);
    }
  }

  /** A child node definition named `name` fits a child of this effective type (None: unknown). */
  predicate NodeFits(d: NodeDefinition, name: string, child: Option<seq<NodeType>>) {
    d.name == name && (child.None? || IncludesNodeTypes(child.value, d.requiredPrimaryTypeNames))
  }

  function FirstFittingNode(defs: seq<NodeDefinition>, name: string, child: Option<seq<NodeType>>): (r: Option<nat>)
    ensures r.None? <==> forall j :: 0 <= j < |defs| ==> !NodeFits(defs[j], name, child)
    ensures r.Some? ==> r.value < |defs| && NodeFits(defs[r.value], name, child)
    ensures r.Some? ==> forall j :: 0 <= j < r.value ==> !NodeFits(defs[j], name, child)
  {
    if |defs| == 0 then None
    else if NodeFits(defs[0], name, child) then Some(0)
    else
      var r := FirstFittingNode(defs[1..], name, child);
      assert forall j :: 1 <= j < |defs| ==> defs[j] == defs[1..][j - 1];
      if r.None? then None else Some(r.value + 1)
  }

  /**
   * getNodeDefinition: the first definition named `childName` whose required
   * primary types the child's effective type all includes (any one when the
   * child's type is not given), otherwise the first such residual
   * definition, otherwise a violation.
   */
  function GetNodeDefinition(types: seq<NodeType>, childName: string, child: Option<seq<NodeType>>): (r: Result<NodeDefinition, ConstraintViolation>)
    ensures r.Failure? <==>
      forall d :: d in NodeDefinitions(types) ==> !NodeFits(d, childName, child) && !NodeFits(d, RESIDUAL_NAME, child)
    ensures r.Failure? ==> r.error == NoNodeDefinition(childName)
    ensures r.Success? ==> r.value in NodeDefinitions(types)
    ensures r.Success? && r.value.name == childName ==> NodeFits(r.value, childName, child)
    ensures r.Success? && r.value.name != childName ==>
      NodeFits(r.value, RESIDUAL_NAME, child) &&
      forall d :: d in NodeDefinitions(types) ==> !NodeFits(d, childName, child)
    ensures r.Success? && child.Some? ==>
      forall k :: 0 <= k < |r.value.requiredPrimaryTypeNames| ==>
        IncludesNodeType(child.value, r.value.requiredPrimaryTypeNames[k])
  {
    var defs := NodeDefinitions(types);
    match FirstFittingNode(defs, childName, child)
    case Some(i) => Success(defs[i])
    case None =>
      match FirstFittingNode(defs, RESIDUAL_NAME, child)
      case Some(i) => Success(defs[i])
      case None => Failure(NoNodeDefinition(childName))
  }

  /**
   * The named definition wins over residual ones and over later named ones:
   * the result is the first fitting definition named `childName` whenever
   * there is one.
   */
  lemma {:induction false} NamedNodeDefinitionFirst(types: seq<NodeType>, childName: string, child: Option<seq<NodeType>>, k: nat)
    requires k < |NodeDefinitions(types)|
    requires NodeFits(NodeDefinitions(types)[k], childName, child)
    requires forall j :: 0 <= j < k ==> !NodeFits(NodeDefinitions(types)[j], childName, child)
    ensures GetNodeDefinition(types, childName, child) == Success(NodeDefinitions(types)[k])
  {
    var defs := NodeDefinitions(types);
    var r := FirstFittingNode(defs, childName, child);
    assert r == Some(k);
  }

  /**
   * With no fitting definition named `childName`, the first fitting
   * residual definition is the result.
   */
  lemma {:induction false} ResidualNodeDefinitionFirst(types: seq<NodeType>, childName: string, child: Option<seq<NodeType>>, k: nat)
    requires forall j :: 0 <= j < |NodeDefinitions(types)| ==> !NodeFits(NodeDefinitions(types)[j], childName, child)
    requires k < |NodeDefinitions(types)|
    requires NodeFits(NodeDefinitions(types)[k], RESIDUAL_NAME, child)
    requires forall j :: 0 <= j < k ==> !NodeFits(NodeDefinitions(types)[j], RESIDUAL_NAME, child)
    ensures GetNodeDefinition(types, childName, child) == Success(NodeDefinitions(types)[k])
  {
    var defs := NodeDefinitions(types);
    assert FirstFittingNode(defs, childName, child).None?;
    var r := FirstFittingNode(defs, RESIDUAL_NAME, child);
    assert r == Some(k);
  }

  /** checkOrderableChildNodes: succeeds iff some included type orders its children. */
  function CheckOrderableChildNodes(types: seq<NodeType>): (r: Result<(), ConstraintViolation>)
    ensures r.Success? <==> exists i :: 0 <= i < |types| && types[i].hasOrderableChildNodes
    ensures r.Failure? ==> r.error == OrderingNotSupported
  {
    if |types| == 0 then Failure(OrderingNotSupported)
    else if types[0].hasOrderableChildNodes then Success(())
    else
      var r := CheckOrderableChildNodes(types[1..]);
      assert forall i :: 1 <= i < |types| ==> types[i] == types[1..][i - 1];
      r
  }

  /** A definition the node must satisfy itself: mandatory and not protected. */
  predicate RequiredProperty(d: PropertyDefinition) { d.isMandatory && !d.isProtected }
  predicate RequiredNode(d: NodeDefinition) { d.isMandatory && !d.isProtected }

  /** The properties and children a node has, by name. */
  datatype Tree = Tree(properties: set<string>, children: set<string>)

  predicate PropertiesPresent(t: NodeType, tree: Tree) {
    forall j :: 0 <= j < |t.propertyDefinitions| && RequiredProperty(t.propertyDefinitions[j]) ==>
      t.propertyDefinitions[j].name in tree.properties
  }

  predicate ChildrenPresent(t: NodeType, tree: Tree) {
    forall j :: 0 <= j < |t.childNodeDefinitions| && RequiredNode(t.childNodeDefinitions[j]) ==>
      t.childNodeDefinitions[j].name in tree.children
  }

  /** A violation reported against `tree` names a required item it lacks. */
  predicate Justified(v: ConstraintViolation, types: seq<NodeType>, tree: Tree) {
    match v
    case MandatoryPropertyMissing(n, tn) =>
      n !in tree.properties &&
      exists i, j :: 0 <= i < |types| && 0 <= j < |types[i].propertyDefinitions| &&
        types[i].name == tn && types[i].propertyDefinitions[j].name == n &&
        RequiredProperty(types[i].propertyDefinitions[j])
    case MandatoryNodeMissing(n, tn) =>
      n !in tree.children &&
      exists i, j :: 0 <= i < |types| && 0 <= j < |types[i].childNodeDefinitions| &&
        types[i].name == tn && types[i].childNodeDefinitions[j].name == n &&
        RequiredNode(types[i].childNodeDefinitions[j])
    case _ => false
  }

  /** The first required property definition of `defs` that `tree` lacks, as a violation of type `tn`. */
  function MissingProperty(defs: seq<PropertyDefinition>, tn: string, tree: Tree): (r: Option<ConstraintViolation>)
    ensures r.None? <==> forall j :: 0 <= j < |defs| && RequiredProperty(defs[j]) ==> defs[j].name in tree.properties
    ensures r.Some? ==> exists j :: (0 <= j < |defs| && RequiredProperty(defs[j]) &&
      defs[j].name !in tree.properties && r.value == MandatoryPropertyMissing(defs[j].name, tn))
  {
    if |defs| == 0 then None
    else if RequiredProperty(defs[0]) && defs[0].name !in tree.properties then
      Some(MandatoryPropertyMissing(defs[0].name, tn))
    else
      var r := MissingProperty(defs[1..], tn, tree);
      assert forall j :: 1 <= j < |defs| ==> defs[j] == defs[1..][j - 1];
      r
  }

  function MissingNode(defs: seq<NodeDefinition>, tn: string, tree: Tree): (r: Option<ConstraintViolation>)
    ensures r.None? <==> forall j :: 0 <= j < |defs| && RequiredNode(defs[j]) ==> defs[j].name in tree.children
    ensures r.Some? ==> exists j :: (0 <= j < |defs| && RequiredNode(defs[j]) &&
      defs[j].name !in tree.children && r.value == MandatoryNodeMissing(defs[j].name, tn))
  {
    if |defs| == 0 then None
    else if RequiredNode(defs[0]) && defs[0].name !in tree.children then
      Some(MandatoryNodeMissing(defs[0].name, tn))
    else
      var r := MissingNode(defs[1..], tn, tree);
      assert forall j :: 1 <= j < |defs| ==> defs[j] == defs[1..][j - 1];
      r
  }

  /**
   * checkMandatoryItems: type by type, first the property definitions, then
   * the child node definitions; the first required item the tree lacks is
   * reported.
   */
  function CheckMandatoryItems(types: seq<NodeType>, tree: Tree): (r: Result<(), ConstraintViolation>)
    ensures r.Success? <==> forall i :: 0 <= i < |types| ==> PropertiesPresent(types[i], tree) && ChildrenPresent(types[i], tree)
    ensures r.Failure? ==> Justified(r.error, types, tree)
  {
    if |types| == 0 then Success(())
    else
      var t := types[0];
      match MissingProperty(t.propertyDefinitions, t.name, tree)
      case Some(v) => Failure(v)
      case None =>
        match MissingNode(t.childNodeDefinitions, t.name, tree)
        case Some(v) => Failure(v)
        case None =>
          var r := CheckMandatoryItems(types[1..], tree);
          assert forall i :: 1 <= i < |types| ==> types[i] == types[1..][i - 1];
          r
  }
}
