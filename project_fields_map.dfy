/**
 * Resolving a user's field configuration against a project's field nodes:
 * the alias-keyed map of resolved fields built by
 * `projectFieldsNodesToFieldsMap`.
 */
module ProjectFieldsMap {
  import opened Results
  import opened OptionIndex

  // ---------------------------------------------------------------------------
  // Data model
  // ---------------------------------------------------------------------------

  /** What the user's configuration gives for one alias: a bare display name, or `{name, optional}`. */
  datatype FieldSpec = Bare(name: string) | Config(name: string, optional: bool)

  /** One entry of the user's `fields` object, in the order `Object.entries` lists it. */
  datatype UserField = UserField(alias: string, spec: FieldSpec)

  /** An option of a single-select field. */
  datatype SelectOption = SelectOption(id: string, name: string)

  /** An iteration of an iteration field. */
  datatype Iteration = Iteration(id: string, title: string)

  /** The configuration of an iteration field: its active and its completed iterations. */
  datatype IterationConfig = IterationConfig(iterations: seq<Iteration>, completedIterations: seq<Iteration>)

  /**
   * A field node of the project. `options` is present for a single-select
   * field and `configuration` for an iteration field; nothing in the node
   * stops both from being present.
   */
  datatype FieldNode = FieldNode(
    id: string,
    name: string,
    dataType: string,
    options: Option<seq<SelectOption>>,
    configuration: Option<IterationConfig>)

  /**
   * A resolved field. The properties a placeholder lacks (`id`, `name`,
   * `dataType`) and those only enumerated fields have (the two option indices
   * and `configuration`) are `None` when absent.
   */
  datatype FieldEntry = FieldEntry(
    id: Option<string>,
    name: Option<string>,
    dataType: Option<string>,
    userName: string,
    optional: bool,
    existsInProject: bool,
    optionsById: Option<map<string, string>>,
    optionsByValue: Option<map<string, string>>,
    configuration: Option<IterationConfig>)

  /** The error thrown for a required field that no node matches. */
  datatype UnknownFieldError = UnknownFieldError(
    userFieldName: string,
    userFieldNameAlias: string,
    projectFieldNames: seq<string>)

  /** The injected name matcher `state.matchFieldName`. */
  datatype State = State(matchFieldName: (string, string) -> bool)

  /** JavaScript's `String.prototype.toLowerCase` and `String.prototype.trim`. */
  datatype StringOps = StringOps(toLowerCase: string -> string, trim: string -> string)

  /** A spec is optional only in object form with `optional` set. */
  predicate IsOptional(spec: FieldSpec)
  {
    spec.Config? && spec.optional
  }

  /** The user's aliases are the keys of an object, so no two entries share one. */
  ghost predicate DistinctAliases(fields: seq<UserField>)
  {
    forall i, j :: 0 <= i < j < |fields| ==> fields[i].alias != fields[j].alias
  }

  /** No entry after position `i` has the alias of the entry at `i`. */
  ghost predicate LastWithAlias(fields: seq<UserField>, i: int)
    requires 0 <= i < |fields|
  {
    forall j :: i < j < |fields| ==> fields[j].alias != fields[i].alias
  }

  ghost function Aliases(fields: seq<UserField>): set<string>
  {
    set i | 0 <= i < |fields| :: fields[i].alias
  }

  // ---------------------------------------------------------------------------
  // Seeding the optional fields
  // ---------------------------------------------------------------------------

  /** The placeholder an optional field keeps until a node matches it. */
  function Placeholder(userName: string): FieldEntry
  {
    FieldEntry(None, None, None, userName, true, false, None, None, None)
  }

  /**
   * `optionalFields`: a placeholder under every alias whose spec is optional;
   * bare names and specs whose `optional` is false are skipped.
   */
  function OptionalFields(fields: seq<UserField>): (m: map<string, FieldEntry>)
    ensures m.Keys == set i | 0 <= i < |fields| && IsOptional(fields[i].spec) :: fields[i].alias
    ensures forall i :: 0 <= i < |fields| && IsOptional(fields[i].spec) && LastWithAlias(fields, i) ==>
              m[fields[i].alias] == Placeholder(fields[i].spec.name)
    decreases |fields|
  {
    if fields == [] then map[]
    else
      var init := fields[..|fields| - 1];
      var acc := OptionalFields(init);
      var f := fields[|fields| - 1];
      assert forall i :: 0 <= i < |init| ==> init[i] == fields[i];
      assert forall i :: 0 <= i < |init| && LastWithAlias(fields, i) ==> LastWithAlias(init, i);
      if f.spec.Bare? then acc
      else if !f.spec.optional then acc
      else acc[f.alias := Placeholder(f.spec.name)]
  }

  /** With distinct aliases, an alias is seeded exactly when its own spec is optional. */
  lemma SeededIffOptional(fields: seq<UserField>, i: int)
    requires DistinctAliases(fields)
    requires 0 <= i < |fields|
    ensures fields[i].alias in OptionalFields(fields) <==> IsOptional(fields[i].spec)
    ensures IsOptional(fields[i].spec) ==> OptionalFields(fields)[fields[i].alias] == Placeholder(fields[i].spec.name)
  {
  }

  // ---------------------------------------------------------------------------
  // Matching a spec against the nodes
  // ---------------------------------------------------------------------------

  /** The node's name is lower-cased; the user's name is lower-cased and trimmed. */
  predicate Matches(state: State, ops: StringOps, node: FieldNode, userFieldName: string)
  {
    state.matchFieldName(ops.toLowerCase(node.name), ops.trim(ops.toLowerCase(userFieldName)))
  }

  /** `nodes.find(...)`: the position of the first node that matches the user's name. */
  function FindNode(state: State, ops: StringOps, nodes: seq<FieldNode>, userFieldName: string): (r: Option<nat>)
    ensures r.Some? ==> r.value < |nodes| && Matches(state, ops, nodes[r.value], userFieldName)
    ensures r.Some? ==> forall j :: 0 <= j < r.value ==> !Matches(state, ops, nodes[j], userFieldName)
    ensures r.None? <==> forall j :: 0 <= j < |nodes| ==> !Matches(state, ops, nodes[j], userFieldName)
    decreases |nodes|
  {
    if nodes == [] then None
    else if Matches(state, ops, nodes[0], userFieldName) then Some(0)
    else
      match FindNode(state, ops, nodes[1..], userFieldName)
      case None => None
      case Some(k) => Some(k + 1)
  }

  /** `nodes.map((node) => node.name)` */
  function ProjectFieldNames(nodes: seq<FieldNode>): (names: seq<string>)
    ensures |names| == |nodes|
    ensures forall i :: 0 <= i < |nodes| ==> names[i] == nodes[i].name
  {
    seq(|nodes|, i requires 0 <= i < |nodes| => nodes[i].name)
  }

  // ---------------------------------------------------------------------------
  // The entry of a matched field
  // ---------------------------------------------------------------------------

  function OptionId(o: SelectOption): string { o.id }
  function OptionName(o: SelectOption): string { o.name }
  function IterationId(it: Iteration): string { it.id }
  function IterationTitle(it: Iteration): string { it.title }

  /** `configuration.iterations.concat(configuration.completedIterations)` */
  function AllIterations(c: IterationConfig): seq<Iteration>
  {
    c.iterations + c.completedIterations
  }

  /** The entry stored for a spec that `node` matches. */
  function ResolvedEntry(node: FieldNode, userName: string, optional: bool): FieldEntry
  {
    var base := FieldEntry(Some(node.id), Some(node.name), Some(node.dataType), userName, optional, true, None, None, None);
    var withOptions :=
      if node.options.Some? then
        base.(optionsById := Some(Index(node.options.value, OptionId, OptionName)),
              optionsByValue := Some(Index(node.options.value, OptionName, OptionId)))
      else base;
    if node.configuration.Some? then
      var all := AllIterations(node.configuration.value);
      withOptions.(optionsById := Some(Index(all, IterationId, IterationTitle)),
                   optionsByValue := Some(Index(all, IterationTitle, IterationId)),
                   configuration := node.configuration)
    else withOptions
  }

  /**
   * A matched entry carries the node's identity and the user's name, and for
   * an enumerated node both option indices; when the node has both `options`
   * and `configuration`, the iteration indices are the ones kept.
   */
  lemma ResolvedEntryFields(node: FieldNode, userName: string, optional: bool)
    ensures var e := ResolvedEntry(node, userName, optional);
      && e.id == Some(node.id) && e.name == Some(node.name) && e.dataType == Some(node.dataType)
      && e.userName == userName && e.optional == optional && e.existsInProject
      && e.configuration == node.configuration
      && e.optionsById.Some? == e.optionsByValue.Some? == (node.options.Some? || node.configuration.Some?)
      && (node.configuration.Some? ==>
            && IndexesLastWins(AllIterations(node.configuration.value), IterationId, IterationTitle, e.optionsById.value)
            && IndexesLastWins(AllIterations(node.configuration.value), IterationTitle, IterationId, e.optionsByValue.value))
      && (node.configuration.None? && node.options.Some? ==>
            && IndexesLastWins(node.options.value, OptionId, OptionName, e.optionsById.value)
            && IndexesLastWins(node.options.value, OptionName, OptionId, e.optionsByValue.value))
  {
  }

  // ---------------------------------------------------------------------------
  // The build
  // ---------------------------------------------------------------------------

  /** A required spec that no node matches: the build fails on it. */
  predicate UnmatchedRequired(state: State, ops: StringOps, nodes: seq<FieldNode>, f: UserField)
  {
    !IsOptional(f.spec) && FindNode(state, ops, nodes, f.spec.name).None?
  }

  /**
   * What the build leaves under `f`'s alias: the resolved entry of the first
   * node that matches it, or, when none does, its placeholder.
   */
  ghost predicate HasOutcome(state: State, ops: StringOps, nodes: seq<FieldNode>, acc: map<string, FieldEntry>, f: UserField)
  {
    && f.alias in acc
    && match FindNode(state, ops, nodes, f.spec.name)
       case Some(k) => acc[f.alias] == ResolvedEntry(nodes[k], f.spec.name, IsOptional(f.spec))
       case None => IsOptional(f.spec) && acc[f.alias] == Placeholder(f.spec.name)
  }

  /**
   * The accumulator after the reducer has run on the first `i` entries: the
   * seeded aliases and the aliases visited so far are its keys, every visited
   * alias has its outcome, and every optional alias not yet visited still
   * holds its placeholder.
   */
  ghost predicate BuiltUpTo(state: State, ops: StringOps, nodes: seq<FieldNode>, fields: seq<UserField>,
                            acc: map<string, FieldEntry>, i: int)
    requires 0 <= i <= |fields|
  {
    && acc.Keys == OptionalFields(fields).Keys + Aliases(fields[..i])
    && (forall j :: 0 <= j < i ==> HasOutcome(state, ops, nodes, acc, fields[j]))
    && (forall j :: i <= j < |fields| && IsOptional(fields[j].spec) ==>
          fields[j].alias in acc && acc[fields[j].alias] == Placeholder(fields[j].spec.name))
  }

  /** Visiting one more entry adds its alias to the visited ones. */
  lemma AliasesOfLongerPrefix(fields: seq<UserField>, i: int)
    requires 0 <= i < |fields|
    ensures Aliases(fields[..i + 1]) == Aliases(fields[..i]) + {fields[i].alias}
  {
  }

  /** The seeded map is the accumulator before any entry is visited. */
  lemma BuiltUpToStart(state: State, ops: StringOps, nodes: seq<FieldNode>, fields: seq<UserField>)
    requires DistinctAliases(fields)
    ensures BuiltUpTo(state, ops, nodes, fields, OptionalFields(fields), 0)
  {
  }

  /**
   * One reducer step that does not throw: leaving the accumulator as it is
   * (unmatched optional entry) or storing the resolved entry under the alias
   * keeps every other alias's entry and gives the visited alias its outcome.
   */
  lemma BuiltUpToStep(state: State, ops: StringOps, nodes: seq<FieldNode>, fields: seq<UserField>,
                      acc: map<string, FieldEntry>, next: map<string, FieldEntry>, i: int)
    requires DistinctAliases(fields)
    requires 0 <= i < |fields|
    requires BuiltUpTo(state, ops, nodes, fields, acc, i)
    requires !UnmatchedRequired(state, ops, nodes, fields[i])
    requires FindNode(state, ops, nodes, fields[i].spec.name).None? ==> next == acc
    requires FindNode(state, ops, nodes, fields[i].spec.name).Some? ==>
               var k := FindNode(state, ops, nodes, fields[i].spec.name).value;
               next == acc[fields[i].alias := ResolvedEntry(nodes[k], fields[i].spec.name, IsOptional(fields[i].spec))]
    ensures BuiltUpTo(state, ops, nodes, fields, next, i + 1)
  {
    var alias := fields[i].alias;
    AliasesOfLongerPrefix(fields, i);
    forall j | 0 <= j < |fields| && j != i && fields[j].alias in acc
      ensures fields[j].alias in next && next[fields[j].alias] == acc[fields[j].alias]
    {
      assert fields[j].alias != alias;
    }
    forall j | 0 <= j < i + 1 ensures HasOutcome(state, ops, nodes, next, fields[j]) {
      if j < i {
        assert HasOutcome(state, ops, nodes, acc, fields[j]);
      }
    }
  }

  /**
   * Each alias is visited once: before the reduce reaches an entry, its alias
   * is in the accumulator exactly when it was seeded, that is, exactly when
   * its spec is optional.
   */
  lemma UnvisitedAliasInAccIffOptional(state: State, ops: StringOps, nodes: seq<FieldNode>, fields: seq<UserField>,
                                       acc: map<string, FieldEntry>, i: int)
    requires DistinctAliases(fields)
    requires 0 <= i < |fields|
    requires BuiltUpTo(state, ops, nodes, fields, acc, i)
    ensures fields[i].alias in acc <==> IsOptional(fields[i].spec)
  {
    forall j | 0 <= j < i ensures fields[..i][j].alias != fields[i].alias {
      assert fields[..i][j] == fields[j];
    }
    assert fields[i].alias !in Aliases(fields[..i]);
    SeededIffOptional(fields, i);
  }

  /** Every visited entry has its outcome, so none of them is an unmatched required one. */
  lemma BuiltUpToNoFailure(state: State, ops: StringOps, nodes: seq<FieldNode>, fields: seq<UserField>,
                           acc: map<string, FieldEntry>, i: int)
    requires 0 <= i <= |fields|
    requires BuiltUpTo(state, ops, nodes, fields, acc, i)
    ensures forall j :: 0 <= j < i ==> !UnmatchedRequired(state, ops, nodes, fields[j])
  {
  }

  /** Once every entry is visited, the accumulator is the build's promised map. */
  lemma BuiltUpToEnd(state: State, ops: StringOps, nodes: seq<FieldNode>, fields: seq<UserField>,
                     acc: map<string, FieldEntry>)
    requires BuiltUpTo(state, ops, nodes, fields, acc, |fields|)
    ensures acc.Keys == Aliases(fields)
    ensures forall i :: 0 <= i < |fields| && FindNode(state, ops, nodes, fields[i].spec.name).Some? ==>
              fields[i].alias in acc
              && acc[fields[i].alias]
                 == ResolvedEntry(nodes[FindNode(state, ops, nodes, fields[i].spec.name).value],
                                  fields[i].spec.name, IsOptional(fields[i].spec))
    ensures forall i :: 0 <= i < |fields| && FindNode(state, ops, nodes, fields[i].spec.name).None? ==>
              IsOptional(fields[i].spec) && fields[i].alias in acc
              && acc[fields[i].alias] == Placeholder(fields[i].spec.name)
  {
    assert fields[..|fields|] == fields;
    forall i | 0 <= i < |fields| ensures HasOutcome(state, ops, nodes, acc, fields[i]) { }
  }

  /**
   * The reducer applied to one entry of the user's fields: throws for an
   * unmatched required field, leaves `acc` as it is for an unmatched optional
   * one, and otherwise stores the resolved entry under the alias.
   *
   * The reduce starts from the seeded object itself, so the source's test
   * `userFieldNameAlias in optionalFields` reads the accumulator; here it is
   * `field.alias in acc`. The entry is built by the same property writes, in
   * the same order, as the source makes on the stored object; `ResolvedEntry`
   * is the value those writes produce.
   */
  method ResolveField(state: State, ops: StringOps, nodes: seq<FieldNode>,
                      acc: map<string, FieldEntry>, field: UserField)
    returns (r: Result<map<string, FieldEntry>, UnknownFieldError>)
    ensures r.Err? <==> UnmatchedRequired(state, ops, nodes, field)
    ensures r.Err? ==> r.error == UnknownFieldError(field.spec.name, field.alias, ProjectFieldNames(nodes))
    ensures FindNode(state, ops, nodes, field.spec.name).None? && IsOptional(field.spec) ==> r == Ok(acc)
    ensures FindNode(state, ops, nodes, field.spec.name).Some? ==>
              var k := FindNode(state, ops, nodes, field.spec.name).value;
              r == Ok(acc[field.alias := ResolvedEntry(nodes[k], field.spec.name, field.alias in acc)])
  {
    var fieldOptional := false;
    var userFieldName := field.spec.name;
    if field.spec.Config? {
      fieldOptional := field.spec.optional;
    }

    var found := FindNode(state, ops, nodes, userFieldName);
    if found.None? {
      var projectFieldNames := ProjectFieldNames(nodes);
      if !fieldOptional {
        return Err(UnknownFieldError(userFieldName, field.alias, projectFieldNames));
      }
      return Ok(acc);
    }

    var node := nodes[found.value];
    var entry := FieldEntry(Some(node.id), Some(node.name), Some(node.dataType), userFieldName,
                            field.alias in acc, true, None, None, None);
    if node.options.Some? {
      entry := entry.(optionsById := Some(Index(node.options.value, OptionId, OptionName)));
      entry := entry.(optionsByValue := Some(Index(node.options.value, OptionName, OptionId)));
    }
    if node.configuration.Some? {
      var all := AllIterations(node.configuration.value);
      entry := entry.(optionsById := Some(Index(all, IterationId, IterationTitle)));
      entry := entry.(optionsByValue := Some(Index(all, IterationTitle, IterationId)));
      entry := entry.(configuration := node.configuration);
    }
    r := Ok(acc[field.alias := entry]);
  }

  /**
   * `projectFieldsNodesToFieldsMap`: seeds the optional fields, then resolves
   * every entry of the user's fields in order. The build fails with the error
   * of the first required field no node matches; otherwise every alias has an
   * entry: the resolved entry of its first matching node, or its placeholder.
   */
  method ProjectFieldsNodesToFieldsMap(state: State, ops: StringOps, fields: seq<UserField>, nodes: seq<FieldNode>)
    returns (r: Result<map<string, FieldEntry>, UnknownFieldError>)
    requires DistinctAliases(fields)
    ensures r.Err? <==> exists i :: 0 <= i < |fields| && UnmatchedRequired(state, ops, nodes, fields[i])
    ensures r.Err? ==>
              exists i :: 0 <= i < |fields| && UnmatchedRequired(state, ops, nodes, fields[i])
                && (forall j :: 0 <= j < i ==> !UnmatchedRequired(state, ops, nodes, fields[j]))
                && r.error == UnknownFieldError(fields[i].spec.name, fields[i].alias, ProjectFieldNames(nodes))
    ensures r.Ok? ==> r.value.Keys == Aliases(fields)
    ensures r.Ok? ==>
              forall i :: 0 <= i < |fields| && FindNode(state, ops, nodes, fields[i].spec.name).Some? ==>
                r.value[fields[i].alias]
                == ResolvedEntry(nodes[FindNode(state, ops, nodes, fields[i].spec.name).value],
                                 fields[i].spec.name, IsOptional(fields[i].spec))
    ensures r.Ok? ==>
              forall i :: 0 <= i < |fields| && FindNode(state, ops, nodes, fields[i].spec.name).None? ==>
                IsOptional(fields[i].spec) && r.value[fields[i].alias] == Placeholder(fields[i].spec.name)
  {
    var acc := OptionalFields(fields);
    BuiltUpToStart(state, ops, nodes, fields);
    var i := 0;
    while i < |fields|
      invariant 0 <= i <= |fields|
      invariant BuiltUpTo(state, ops, nodes, fields, acc, i)
    {
      UnvisitedAliasInAccIffOptional(state, ops, nodes, fields, acc, i);
      var next := ResolveField(state, ops, nodes, acc, fields[i]);
      if next.Err? {
        BuiltUpToNoFailure(state, ops, nodes, fields, acc, i);
        return next;
      }
      BuiltUpToStep(state, ops, nodes, fields, acc, next.value, i);
      acc := next.value;
      i := i + 1;
    }
    BuiltUpToEnd(state, ops, nodes, fields, acc);
    r := Ok(acc);
  }
}
