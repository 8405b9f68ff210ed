/**
 * Reading node type definitions written in the compact notation: the
 * builder factory's namespace mapping, the conversion of prefixed names to
 * the repository's own prefixes, and the builders that collect supertypes
 * and item definitions and assemble a node type description from them.
 */
module NodeTypeDelegates {
  import opened Wrappers
  import opened Strings

  datatype NamespaceError =
    | NoNamespaceForPrefix(prefix: string)
    | UnregisteredUri(uri: string)

  /**
   * Converts one name: a name without ':' is kept; otherwise the text before
   * the first ':' is a prefix of the definitions' namespace mapping `nsmap`,
   * and it is replaced by the repository's prefix (`prefixes`, by namespace
   * URI) for the same namespace.
   */
  function ConvertName(nsmap: map<string, string>, prefixes: map<string, string>, cndName: string): (r: Result<string, NamespaceError>)
    ensures ':' !in cndName ==> r == Success(cndName)
    ensures r.Failure? ==> ':' in cndName
  {
    match IndexOf(cndName, ':')
    case None => Success(cndName)
    case Some(pos) =>
      var prefix := cndName[..pos];
      var local := cndName[pos + 1..];
      if prefix !in nsmap then Failure(NoNamespaceForPrefix(prefix))
      else if nsmap[prefix] !in prefixes then Failure(UnregisteredUri(nsmap[prefix]))
      else Success(prefixes[nsmap[prefix]] + ":" + local)
  }

  /**
   * The outcome for a prefixed name: an unmapped prefix fails, and otherwise
   * the local part after the first ':' is kept unchanged behind the
   * repository's prefix.
   */
  lemma ConvertPrefixedName(nsmap: map<string, string>, prefixes: map<string, string>, prefix: string, local: string)
    requires ':' !in prefix
    ensures prefix !in nsmap ==>
      ConvertName(nsmap, prefixes, prefix + ":" + local) == Failure(NoNamespaceForPrefix(prefix))
    ensures prefix in nsmap && nsmap[prefix] !in prefixes ==>
      ConvertName(nsmap, prefixes, prefix + ":" + local) == Failure(UnregisteredUri(nsmap[prefix]))
    ensures prefix in nsmap && nsmap[prefix] in prefixes ==>
      ConvertName(nsmap, prefixes, prefix + ":" + local) == Success(prefixes[nsmap[prefix]] + ":" + local)
  {
    var s := prefix + ":" + local;
    IndexOfAfterPrefix(prefix, ':', local);
    assert s[..|prefix|] == prefix;
    assert s[|prefix| + 1..] == local;
  }

  /**
   * After the mapping learns `prefix`, names with that prefix convert through
   * the new namespace and names with any other prefix convert as before.
   */
  lemma ConvertAfterSetNamespace(nsmap: map<string, string>, prefixes: map<string, string>,
                                 prefix: string, uri: string, other: string, local: string)
    requires ':' !in prefix && ':' !in other && other != prefix && uri in prefixes
    ensures ConvertName(nsmap[prefix := uri], prefixes, prefix + ":" + local) == Success(prefixes[uri] + ":" + local)
    ensures ConvertName(nsmap[prefix := uri], prefixes, other + ":" + local) == ConvertName(nsmap, prefixes, other + ":" + local)
  {
    ConvertPrefixedName(nsmap[prefix := uri], prefixes, prefix, local);
    ConvertPrefixedName(nsmap[prefix := uri], prefixes, other, local);
    ConvertPrefixedName(nsmap, prefixes, other, local);
  }

  /** A mapping agrees with the repository when each of its prefixes is the repository's prefix for its URI. */
  predicate Agrees(nsmap: map<string, string>, prefixes: map<string, string>) {
    forall p :: p in nsmap ==> nsmap[p] in prefixes && prefixes[nsmap[p]] == p
  }

  /** Under a mapping that agrees with the repository, conversion never fails and changes nothing. */
  lemma ConvertAgreeingName(nsmap: map<string, string>, prefixes: map<string, string>, cndName: string)
    requires Agrees(nsmap, prefixes)
    requires ':' in cndName ==> cndName[..IndexOf(cndName, ':').value] in nsmap
    ensures ConvertName(nsmap, prefixes, cndName) == Success(cndName)
  {
    if ':' in cndName {
      SplitAtIndexOf(cndName, ':');
      var pos := IndexOf(cndName, ':').value;
      ConvertPrefixedName(nsmap, prefixes, cndName[..pos], cndName[pos + 1..]);
    }
  }

  /** convertNameToOak: an absent name stays absent. */
  function ConvertNameToOak(nsmap: map<string, string>, prefixes: map<string, string>, cndName: Option<string>): (r: Result<Option<string>, NamespaceError>)
    ensures cndName.None? ==> r == Success(None)
    ensures cndName.Some? ==> (r.Success? <==> ConvertName(nsmap, prefixes, cndName.value).Success?)
    ensures r.Success? && cndName.Some? ==> r.value == Some(ConvertName(nsmap, prefixes, cndName.value).value)
    ensures r.Failure? ==> r.error == ConvertName(nsmap, prefixes, cndName.value).error
  {
    match cndName
    case None => Success(None)
    case Some(n) =>
      match ConvertName(nsmap, prefixes, n)
      case Success(c) => Success(Some(c))
      case Failure(e) => Failure(e)
  }

  /** Converts names one by one; the first failure ends the conversion. */
  function ConvertNames(nsmap: map<string, string>, prefixes: map<string, string>, names: seq<string>): (r: Result<seq<string>, NamespaceError>)
    ensures r.Success? <==> forall i :: 0 <= i < |names| ==> ConvertName(nsmap, prefixes, names[i]).Success?
    ensures r.Success? ==> |r.value| == |names|
    ensures r.Success? ==> forall i :: 0 <= i < |names| ==> ConvertName(nsmap, prefixes, names[i]) == Success(r.value[i])
  {
    if |names| == 0 then Success([])
    else
      var front := names[..|names| - 1];
      assert forall i :: 0 <= i < |names| - 1 ==> names[i] == front[i];
      match ConvertNames(nsmap, prefixes, front)
      case Failure(e) => Failure(e)
      case Success(vs) =>
        match ConvertName(nsmap, prefixes, names[|names| - 1])
        case Failure(e) => Failure(e)
        case Success(v) => Success(vs + [v])
  }

  /** A property definition as the compact notation describes it. */
  datatype PropertyDefinitionDelegate = PropertyDefinitionDelegate(
    name: string, autoCreated: bool, isMandatory: bool, isProtected: bool,
    requiredType: int, isMultiple: bool, defaultValues: seq<string>)

  /** A child node definition as the compact notation describes it. */
  datatype NodeDefinitionDelegate = NodeDefinitionDelegate(
    name: string, autoCreated: bool, isMandatory: bool, isProtected: bool,
    requiredPrimaryTypes: seq<string>, defaultPrimaryType: Option<string>, allowsSameNameSiblings: bool)

  datatype NodeTypeDelegate = NodeTypeDelegate(
    name: Option<string>, declaredSupertypes: seq<string>, primaryItemName: Option<string>,
    isMixin: bool, isAbstract: bool, isOrderable: bool,
    propertyDefinitions: seq<PropertyDefinitionDelegate>,
    childNodeDefinitions: seq<NodeDefinitionDelegate>)

  /** Converts the name of every property definition, in order; the first failure ends it. */
  function ConvertProperties(nsmap: map<string, string>, prefixes: map<string, string>, defs: seq<PropertyDefinitionDelegate>): (r: Result<seq<PropertyDefinitionDelegate>, NamespaceError>)
    ensures r.Success? <==> forall i :: 0 <= i < |defs| ==> ConvertName(nsmap, prefixes, defs[i].name).Success?
    ensures r.Success? ==> |r.value| == |defs|
    ensures r.Success? ==> forall i :: 0 <= i < |defs| ==> r.value[i] == defs[i].(name := ConvertName(nsmap, prefixes, defs[i].name).value)
  {
    if |defs| == 0 then Success([])
    else
      var front := defs[..|defs| - 1];
      assert forall i :: 0 <= i < |defs| - 1 ==> defs[i] == front[i];
      match ConvertProperties(nsmap, prefixes, front)
      case Failure(e) => Failure(e)
      case Success(ps) =>
        match ConvertName(nsmap, prefixes, defs[|defs| - 1].name)
        case Failure(e) => Failure(e)
        case Success(n) => Success(ps + [defs[|defs| - 1].(name := n)])
  }

  /** When every name before position `i` converts and the one at `i` does not, conversion fails with its error. */
  lemma {:induction false} NamesFailAt(nsmap: map<string, string>, prefixes: map<string, string>, names: seq<string>, i: nat)
    requires i < |names| && ConvertName(nsmap, prefixes, names[i]).Failure?
    requires forall j :: 0 <= j < i ==> ConvertName(nsmap, prefixes, names[j]).Success?
    ensures ConvertNames(nsmap, prefixes, names) == Failure(ConvertName(nsmap, prefixes, names[i]).error)
    decreases |names|
  {
    var front := names[..|names| - 1];
    if i < |names| - 1 {
      assert front[i] == names[i];
      assert forall j :: 0 <= j < i ==> front[j] == names[j];
      NamesFailAt(nsmap, prefixes, front, i);
    } else {
      assert forall j :: 0 <= j < |front| ==> front[j] == names[j];
    }
  }

  /** When every definition before position `i` converts and the one at `i` does not, conversion fails with its error. */
  lemma {:induction false} PropertiesFailAt(nsmap: map<string, string>, prefixes: map<string, string>, defs: seq<PropertyDefinitionDelegate>, i: nat)
    requires i < |defs| && ConvertName(nsmap, prefixes, defs[i].name).Failure?
    requires forall j :: 0 <= j < i ==> ConvertName(nsmap, prefixes, defs[j].name).Success?
    ensures ConvertProperties(nsmap, prefixes, defs) == Failure(ConvertName(nsmap, prefixes, defs[i].name).error)
    decreases |defs|
  {
    var front := defs[..|defs| - 1];
    if i < |defs| - 1 {
      assert front[i] == defs[i];
      assert forall j :: 0 <= j < i ==> front[j] == defs[j];
      PropertiesFailAt(nsmap, prefixes, front, i);
    } else {
      assert forall j :: 0 <= j < |front| ==> front[j] == defs[j];
    }
  }

  /** The factory's namespace mapping, filled while the definitions are read. */
  class DefinitionBuilderFactory {
    var nsmap: map<string, string>
    /** The repository's prefix for each registered namespace URI. */
    const prefixes: map<string, string>

    constructor (prefixes: map<string, string>)
      ensures nsmap == map[] && this.prefixes == prefixes
    {
      nsmap := map[];
      this.prefixes := prefixes;
    }

    method SetNamespace(prefix: string, uri: string)
      modifies this
      ensures nsmap == old(nsmap)[prefix := uri]
    {
      nsmap := nsmap[prefix := uri];
    }

    method SetNamespaceMapping(mapping: map<string, string>)
      modifies this
      ensures nsmap == mapping
    {
      nsmap := mapping;
    }

    /** convertNamesToOak: element by element, in order, failing on the first name that fails. */
    method ConvertNamesToOak(cndNames: seq<string>) returns (result: Result<seq<string>, NamespaceError>)
      ensures result == ConvertNames(nsmap, prefixes, cndNames)
    {
      var converted: seq<string> := [];
      for i := 0 to |cndNames|
        invariant ConvertNames(nsmap, prefixes, cndNames[..i]) == Success(converted)
      {
        assert cndNames[..i + 1][..i] == cndNames[..i];
        var c := ConvertName(nsmap, prefixes, cndNames[i]);
        if c.Failure? {
          assert forall j :: 0 <= j < i ==> cndNames[j] == cndNames[..i][j];
          NamesFailAt(nsmap, prefixes, cndNames, i);
          return Failure(c.error);
        }
        converted := converted + [c.value];
      }
      assert cndNames[..|cndNames|] == cndNames;
      result := Success(converted);
    }

    /** The loop of build over the property definitions, converting each name in order. */
    method ConvertPropertyNames(defs: seq<PropertyDefinitionDelegate>) returns (result: Result<seq<PropertyDefinitionDelegate>, NamespaceError>)
      ensures result == ConvertProperties(nsmap, prefixes, defs)
    {
      var converted: seq<PropertyDefinitionDelegate> := [];
      for i := 0 to |defs|
        invariant ConvertProperties(nsmap, prefixes, defs[..i]) == Success(converted)
      {
        assert defs[..i + 1][..i] == defs[..i];
        var c := ConvertName(nsmap, prefixes, defs[i].name);
        if c.Failure? {
          assert forall j :: 0 <= j < i ==> defs[j] == defs[..i][j];
          PropertiesFailAt(nsmap, prefixes, defs, i);
          return Failure(c.error);
        }
        converted := converted + [defs[i].(name := c.value)];
      }
      assert defs[..|defs|] == defs;
      result := Success(converted);
    }
  }

  /**
   * The node type builder: build converts the type's name, its supertypes
   * and its primary item name, each written back before the next step, and
   * then the property definition names; child node definitions are copied
   * as they are.
   */
  function Assemble(nsmap: map<string, string>, prefixes: map<string, string>,
                    name: Option<string>, supertypes: seq<string>, primaryItemName: Option<string>,
                    isMixin: bool, isAbstract: bool, isOrderable: bool,
                    properties: seq<PropertyDefinitionDelegate>,
                    children: seq<NodeDefinitionDelegate>): (r: Result<NodeTypeDelegate, NamespaceError>)
    ensures r.Success? <==>
      ConvertNameToOak(nsmap, prefixes, name).Success? &&
      ConvertNames(nsmap, prefixes, supertypes).Success? &&
      ConvertNameToOak(nsmap, prefixes, primaryItemName).Success? &&
      ConvertProperties(nsmap, prefixes, properties).Success?
    ensures r.Success? ==>
      && r.value.name == ConvertNameToOak(nsmap, prefixes, name).value
      && r.value.primaryItemName == ConvertNameToOak(nsmap, prefixes, primaryItemName).value
      && |r.value.declaredSupertypes| == |supertypes|
      && (forall i :: 0 <= i < |supertypes| ==>
            ConvertName(nsmap, prefixes, supertypes[i]) == Success(r.value.declaredSupertypes[i]))
      && |r.value.propertyDefinitions| == |properties|
      && (forall i :: 0 <= i < |properties| ==>
            r.value.propertyDefinitions[i] == properties[i].(name := ConvertName(nsmap, prefixes, properties[i].name).value))
      && r.value.childNodeDefinitions == children
      && r.value.isMixin == isMixin && r.value.isAbstract == isAbstract && r.value.isOrderable == isOrderable
    ensures r.Failure? && ConvertNameToOak(nsmap, prefixes, name).Failure? ==>
      r.error == ConvertNameToOak(nsmap, prefixes, name).error
  {
    match ConvertNameToOak(nsmap, prefixes, name)
    case Failure(e) => Failure(e)
    case Success(n) =>
      match ConvertNames(nsmap, prefixes, supertypes)
      case Failure(e) => Failure(e)
      case Success(sts) =>
        match ConvertNameToOak(nsmap, prefixes, primaryItemName)
        case Failure(e) => Failure(e)
        case Success(pim) =>
          match ConvertProperties(nsmap, prefixes, properties)
          case Failure(e) => Failure(e)
          case Success(ps) => Success(NodeTypeDelegate(n, sts, pim, isMixin, isAbstract, isOrderable, ps, children))
  }

  class NodeTypeDefinitionBuilder {
    const factory: DefinitionBuilderFactory
    var name: Option<string>
    var isMixin: bool
    var isAbstract: bool
    var isOrderable: bool
    var primaryItemName: Option<string>
    var declaredSupertypes: seq<string>
    var propertyDefinitions: seq<PropertyDefinitionDelegate>
    var childNodeDefinitions: seq<NodeDefinitionDelegate>

    constructor (factory: DefinitionBuilderFactory)
      ensures this.factory == factory
      ensures name.None? && primaryItemName.None? && !isMixin && !isAbstract && !isOrderable
      ensures declaredSupertypes == [] && propertyDefinitions == [] && childNodeDefinitions == []
    {
      this.factory := factory;
      name := None;
      isMixin := false;
      isAbstract := false;
      isOrderable := false;
      primaryItemName := None;
      declaredSupertypes := [];
      propertyDefinitions := [];
      childNodeDefinitions := [];
    }

    method AddSupertype(superType: string)
      modifies this
      ensures declaredSupertypes == old(declaredSupertypes) + [superType]
      ensures name == old(name) && primaryItemName == old(primaryItemName)
      ensures isMixin == old(isMixin) && isAbstract == old(isAbstract) && isOrderable == old(isOrderable)
      ensures propertyDefinitions == old(propertyDefinitions) && childNodeDefinitions == old(childNodeDefinitions)
    {
      declaredSupertypes := declaredSupertypes + [superType];
    }

    method SetPrimaryItemName(itemName: Option<string>)
      modifies this
      ensures primaryItemName == itemName
      ensures name == old(name) && declaredSupertypes == old(declaredSupertypes)
      ensures isMixin == old(isMixin) && isAbstract == old(isAbstract) && isOrderable == old(isOrderable)
      ensures propertyDefinitions == old(propertyDefinitions) && childNodeDefinitions == old(childNodeDefinitions)
    {
      primaryItemName := itemName;
    }

    method AddPropertyDefinition(pd: PropertyDefinitionDelegate)
      modifies this
      ensures propertyDefinitions == old(propertyDefinitions) + [pd]
      ensures name == old(name) && primaryItemName == old(primaryItemName) && declaredSupertypes == old(declaredSupertypes)
      ensures isMixin == old(isMixin) && isAbstract == old(isAbstract) && isOrderable == old(isOrderable)
      ensures childNodeDefinitions == old(childNodeDefinitions)
    {
      propertyDefinitions := propertyDefinitions + [pd];
    }

    method AddNodeDefinition(nd: NodeDefinitionDelegate)
      modifies this
      ensures childNodeDefinitions == old(childNodeDefinitions) + [nd]
      ensures name == old(name) && primaryItemName == old(primaryItemName) && declaredSupertypes == old(declaredSupertypes)
      ensures isMixin == old(isMixin) && isAbstract == old(isAbstract) && isOrderable == old(isOrderable)
      ensures propertyDefinitions == old(propertyDefinitions)
    {
      childNodeDefinitions := childNodeDefinitions + [nd];
    }

    /**
     * build: the result is the assembled description; the name, the
     * supertypes and the primary item name are replaced by their converted
     * forms as far as the conversion got.
     */
    method Build() returns (result: Result<NodeTypeDelegate, NamespaceError>)
      modifies this
      ensures result == Assemble(factory.nsmap, factory.prefixes, old(name), old(declaredSupertypes), old(primaryItemName),
                                 isMixin, isAbstract, isOrderable, propertyDefinitions, childNodeDefinitions)
      ensures var n := ConvertNameToOak(factory.nsmap, factory.prefixes, old(name));
        var sts := ConvertNames(factory.nsmap, factory.prefixes, old(declaredSupertypes));
        var pim := ConvertNameToOak(factory.nsmap, factory.prefixes, old(primaryItemName));
        && name == (if n.Success? then n.value else old(name))
        && declaredSupertypes == (if n.Success? && sts.Success? then sts.value else old(declaredSupertypes))
        && primaryItemName == (if n.Success? && sts.Success? && pim.Success? then pim.value else old(primaryItemName))
      ensures isMixin == old(isMixin) && isAbstract == old(isAbstract) && isOrderable == old(isOrderable)
      ensures propertyDefinitions == old(propertyDefinitions) && childNodeDefinitions == old(childNodeDefinitions)
    {
      var n := ConvertNameToOak(factory.nsmap, factory.prefixes, name);
      if n.Failure? {
        return Failure(n.error);
      }
      name := n.value;
      var sts := factory.ConvertNamesToOak(declaredSupertypes);
      if sts.Failure? {
        return Failure(sts.error);
      }
      declaredSupertypes := sts.value;
      var pim := ConvertNameToOak(factory.nsmap, factory.prefixes, primaryItemName);
      if pim.Failure? {
        return Failure(pim.error);
      }
      primaryItemName := pim.value;
      var properties := factory.ConvertPropertyNames(propertyDefinitions);
      if properties.Failure? {
        return Failure(properties.error);
      }
      result := Success(NodeTypeDelegate(name, declaredSupertypes, primaryItemName, isMixin, isAbstract, isOrderable,
                                         properties.value, childNodeDefinitions));
    }
  }

  /** A property definition builder; build registers its description with the owning type builder. */
  class PropertyDefinitionBuilder {
    const owner: NodeTypeDefinitionBuilder
    var name: string
    var autoCreated: bool
    var isMandatory: bool
    var isProtected: bool
    var requiredType: int
    var isMultiple: bool
    var declaringNodeType: Option<string>
    var defaultValues: seq<string>
    var valueConstraints: seq<string>

    constructor (owner: NodeTypeDefinitionBuilder)
      ensures this.owner == owner && name == "" && declaringNodeType.None?
      ensures !autoCreated && !isMandatory && !isProtected && !isMultiple && requiredType == 0
      ensures defaultValues == [] && valueConstraints == []
    {
      this.owner := owner;
      name := "";
      autoCreated := false;
      isMandatory := false;
      isProtected := false;
      requiredType := 0;
      isMultiple := false;
      declaringNodeType := None;
      defaultValues := [];
      valueConstraints := [];
    }

    /** The description this builder hands out (its name is converted when the type is built). */
    function Description(): (d: PropertyDefinitionDelegate)
      reads this
      ensures d.name == name && d.defaultValues == defaultValues && d.requiredType == requiredType
      ensures d.isMultiple == isMultiple && d.isMandatory == isMandatory && d.isProtected == isProtected
      ensures d.autoCreated == autoCreated
    {
      PropertyDefinitionDelegate(name, autoCreated, isMandatory, isProtected, requiredType, isMultiple, defaultValues)
    }

    method AddValueConstraint(constraint: string)
      modifies this
      ensures valueConstraints == old(valueConstraints) + [constraint]
      ensures Description() == old(Description()) && declaringNodeType == old(declaringNodeType)
    {
      valueConstraints := valueConstraints + [constraint];
    }

    method AddDefaultValues(value: string)
      modifies this
      ensures defaultValues == old(defaultValues) + [value]
      ensures name == old(name) && requiredType == old(requiredType) && isMultiple == old(isMultiple)
      ensures autoCreated == old(autoCreated) && isMandatory == old(isMandatory) && isProtected == old(isProtected)
      ensures valueConstraints == old(valueConstraints) && declaringNodeType == old(declaringNodeType)
    {
      defaultValues := defaultValues + [value];
    }

    method SetDeclaringNodeType(typeName: string)
      modifies this
      ensures declaringNodeType == Some(typeName)
      ensures Description() == old(Description()) && valueConstraints == old(valueConstraints)
    {
      declaringNodeType := Some(typeName);
    }

    method Build()
      modifies owner
      ensures owner.propertyDefinitions == old(owner.propertyDefinitions) + [Description()]
      ensures owner.name == old(owner.name) && owner.primaryItemName == old(owner.primaryItemName)
      ensures owner.declaredSupertypes == old(owner.declaredSupertypes)
      ensures owner.isMixin == old(owner.isMixin) && owner.isAbstract == old(owner.isAbstract)
      ensures owner.isOrderable == old(owner.isOrderable)
      ensures owner.childNodeDefinitions == old(owner.childNodeDefinitions)
    {
      owner.AddPropertyDefinition(Description());
    }
  }

  /** A child node definition builder; build registers its description with the owning type builder. */
  class NodeDefinitionBuilder {
    const owner: NodeTypeDefinitionBuilder
    var name: string
    var autoCreated: bool
    var isMandatory: bool
    var isProtected: bool
    var allowsSameNameSiblings: bool
    var declaringNodeType: Option<string>
    var defaultPrimaryType: Option<string>
    var requiredPrimaryTypes: seq<string>

    constructor (owner: NodeTypeDefinitionBuilder)
      ensures this.owner == owner && name == "" && declaringNodeType.None? && defaultPrimaryType.None?
      ensures !autoCreated && !isMandatory && !isProtected && !allowsSameNameSiblings
      ensures requiredPrimaryTypes == []
    {
      this.owner := owner;
      name := "";
      autoCreated := false;
      isMandatory := false;
      isProtected := false;
      allowsSameNameSiblings := false;
      declaringNodeType := None;
      defaultPrimaryType := None;
      requiredPrimaryTypes := [];
    }

    /** The description this builder hands out; names are taken as they are. */
    function Description(): (d: NodeDefinitionDelegate)
      reads this
      ensures d.name == name && d.requiredPrimaryTypes == requiredPrimaryTypes
      ensures d.defaultPrimaryType == defaultPrimaryType && d.allowsSameNameSiblings == allowsSameNameSiblings
      ensures d.isMandatory == isMandatory && d.isProtected == isProtected && d.autoCreated == autoCreated
    {
      NodeDefinitionDelegate(name, autoCreated, isMandatory, isProtected, requiredPrimaryTypes, defaultPrimaryType, allowsSameNameSiblings)
    }

    method AddRequiredPrimaryType(typeName: string)
      modifies this
      ensures requiredPrimaryTypes == old(requiredPrimaryTypes) + [typeName]
      ensures name == old(name) && defaultPrimaryType == old(defaultPrimaryType) && declaringNodeType == old(declaringNodeType)
      ensures autoCreated == old(autoCreated) && isMandatory == old(isMandatory) && isProtected == old(isProtected)
      ensures allowsSameNameSiblings == old(allowsSameNameSiblings)
    {
      requiredPrimaryTypes := requiredPrimaryTypes + [typeName];
    }

    method SetDefaultPrimaryType(typeName: string)
      modifies this
      ensures defaultPrimaryType == Some(typeName)
      ensures name == old(name) && requiredPrimaryTypes == old(requiredPrimaryTypes) && declaringNodeType == old(declaringNodeType)
      ensures autoCreated == old(autoCreated) && isMandatory == old(isMandatory) && isProtected == old(isProtected)
      ensures allowsSameNameSiblings == old(allowsSameNameSiblings)
    {
      defaultPrimaryType := Some(typeName);
    }

    method SetDeclaringNodeType(typeName: string)
      modifies this
      ensures declaringNodeType == Some(typeName)
      ensures Description() == old(Description())
    {
      declaringNodeType := Some(typeName);
    }

    method Build()
      modifies owner
      ensures owner.childNodeDefinitions == old(owner.childNodeDefinitions) + [Description()]
      ensures owner.name == old(owner.name) && owner.primaryItemName == old(owner.primaryItemName)
      ensures owner.declaredSupertypes == old(owner.declaredSupertypes)
      ensures owner.isMixin == old(owner.isMixin) && owner.isAbstract == old(owner.isAbstract)
      ensures owner.isOrderable == old(owner.isOrderable)
      ensures owner.propertyDefinitions == old(owner.propertyDefinitions)
    {
      owner.AddNodeDefinition(Description());
    }
  }
}
