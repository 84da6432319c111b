# Project field map, modelled in Dafny

This project models `projectFieldsNodesToFieldsMap` from a GitHub Projects
client library. The function takes the user's field configuration and the
project's list of field nodes. It builds a map from each user-chosen alias to
a resolved field entry.

- The configuration maps each alias to a bare display name or to `{name, optional}`.
- Each field node has an `id`, a `name` and a `dataType`.
- A single-select node also has `options`. An iteration node also has a `configuration`.

The build runs in two passes.

1. Seeding. Every optional spec gets a placeholder entry.
2. Resolving. Each spec, in declaration order, is matched against the nodes.
   - A required spec with no matching node aborts the whole build with an unknown-field error.
   - An optional spec with no matching node keeps its placeholder.
   - A matched spec gets an entry copied from the first matching node.
   - An enumerated node's entry also gets two option indices, one by id and one by value.

Files:

- `results.dfy` (module `Results`): `Option` and `Result`.
- `option_index.dfy` (module `OptionIndex`): the reduce that builds an option
  index, where a later option overwrites an earlier one with the same key.
  It also holds the declarative description of that index and a proof that
  the description determines the index uniquely.
- `project_fields_map.dfy` (module `ProjectFieldsMap`): the data model, the
  seeding fold, the node search, the entry of a matched field, the reducer for
  one spec (`ResolveField`), and the build (`ProjectFieldsNodesToFieldsMap`).
  The build is a method with a loop that updates the accumulated map, as the
  source mutates its accumulator in place.
- `scenarios.dfy` (module `Scenarios`): client methods. They derive the
  outcome of concrete builds from the contracts alone: an optional "Status"
  field that is missing, the same field when required, a single-select field
  and an iteration field.

Modelling choices:

- The user's `fields` object is a sequence of `UserField(alias, spec)` in
  `Object.entries` order. Object keys are unique, so the build requires
  distinct aliases.
- The injected matcher `state.matchFieldName` is the function-valued field
  of `State`. JavaScript's `toLowerCase` and `trim` are the function-valued
  fields of `StringOps`. The model says nothing about what they compute.
- A field node keeps `options` and `configuration` as two independent
  `Option` fields, so a node that carries both is modelled. In that case the
  iteration indices overwrite the option indices, as in the source.
- A resolved entry is one record. The properties a JavaScript entry may lack
  are `Option` fields that are `None` when absent.
- The matcher compares the node's lower-cased name with the user's name,
  lower-cased and then trimmed. The node's name is not trimmed.
- The reduce's accumulator is the seeded object itself, so the test that
  sets a matched entry's `optional` reads the accumulator. `ResolveField`
  tests `alias in acc`, and the build passes it the accumulator, as the
  source does.

## Model

| member | source | states |
|---|---|---|
| `OptionIndex.Index` | api/lib/project-fields-nodes-to-fields-map.js:112-129 | The keys of an option index are exactly the keys of the options. Each key maps to the value of the last option that has that key (a later duplicate wins). |
| `OptionIndex.IndexStep` | api/lib/project-fields-nodes-to-fields-map.js:113-118 | One reduce step (`{...acc, [key]: value}`) over a correct index of the earlier options yields a correct index of all of them. |
| `OptionIndex.LastIndexOf` | api/lib/project-fields-nodes-to-fields-map.js:112-120 | Every key in an index comes from an option, and a last option carries it. |
| `OptionIndex.IndexesLastWinsUnique` | api/lib/project-fields-nodes-to-fields-map.js:111-153 | Two maps that both meet the last-write-wins description of the same options are equal, so the reduce's result is determined by that description. |
| `ProjectFieldsMap.OptionalFields` | api/lib/project-fields-nodes-to-fields-map.js:55-67 | The seeded aliases are exactly those whose spec is an object with `optional` set. Bare names and specs with `optional` false are never seeded. Each seeded alias holds `{userName, optional: true, existsInProject: false}`. |
| `ProjectFieldsMap.SeededIffOptional` | api/lib/project-fields-nodes-to-fields-map.js:55-67 | When aliases are distinct, an alias is in `optionalFields` exactly when its own spec is optional, and it then holds that spec's placeholder. |
| `ProjectFieldsMap.UnvisitedAliasInAccIffOptional` | api/lib/project-fields-nodes-to-fields-map.js:105 | Each alias is visited once: when the reduce reaches a spec, its alias is in the accumulator (the seeded object, line 157) exactly when its spec is optional. So `alias in optionalFields` gives a matched entry's `optional`. |
| `ProjectFieldsMap.FindNode` | api/lib/project-fields-nodes-to-fields-map.js:78-83 | The result is the first node whose lower-cased name the matcher accepts against the user's lower-cased, trimmed name. It is `None` exactly when no node matches. |
| `ProjectFieldsMap.ProjectFieldNames` | api/lib/project-fields-nodes-to-fields-map.js:86 | The error's field names are every node's name, in node order. |
| `ProjectFieldsMap.ResolvedEntryFields` | api/lib/project-fields-nodes-to-fields-map.js:100-153 | A matched entry copies the node's `id`, `name` and `dataType`. It takes the user's name and the given `optional`, and has `existsInProject` true. It has option indices exactly when the node has `options` or `configuration`. An iteration node's indices cover active then completed iterations, and its `configuration` is passed through unchanged. The iteration indices win over the option indices. |
| `ProjectFieldsMap.BuiltUpToStart` | api/lib/project-fields-nodes-to-fields-map.js:157 | The reduce starts from the seeded object itself: before any spec is visited, every optional alias holds its placeholder and no other alias is present. |
| `ProjectFieldsMap.BuiltUpToStep` | api/lib/project-fields-nodes-to-fields-map.js:94-107 | A step that does not throw changes only the visited alias. An unmatched optional spec leaves the map exactly as it was, so its placeholder stays. A matched spec's entry replaces the placeholder under its alias. |
| `ProjectFieldsMap.BuiltUpToNoFailure` | api/lib/project-fields-nodes-to-fields-map.js:85-93 | If the reduce has passed a spec, that spec was not a required spec without a match. |
| `ProjectFieldsMap.BuiltUpToEnd` | api/lib/project-fields-nodes-to-fields-map.js:69-158 | Once every spec is visited, the keys are exactly the aliases. Each alias holds its first matching node's entry, or its placeholder if it is optional and unmatched. |
| `ProjectFieldsMap.ResolveField` | api/lib/project-fields-nodes-to-fields-map.js:70-156 | One spec: the reducer fails exactly when the spec is required and no node matches. The error carries the user's name, the alias and all node names. An unmatched optional spec returns the accumulator unchanged. A matched spec stores the resolved entry under its alias, over any placeholder, and changes no other key. The entry's `optional` is whether the alias is already in the accumulator. |
| `ProjectFieldsMap.ProjectFieldsNodesToFieldsMap` | api/lib/project-fields-nodes-to-fields-map.js:54-159 | The build fails exactly when some required spec has no match. It then reports the first such spec in declaration order and returns no map. Otherwise the map's keys are exactly the aliases. A matched alias holds the entry of its first matching node, with `optional` true exactly when its spec is optional. An unmatched alias is optional and keeps its placeholder. |

## Left out

- The informational log line for an unmatched optional field (lines 94-96) is logging I/O and is not modelled. The build returns the same value with or without it.
- The body of `state.matchFieldName` is injected by the caller and is not part of this model. It is a parameter here, so every property holds for any matcher.
- The Unicode behaviour of JavaScript's `toLowerCase` and `trim` is not modelled. Both are parameters, and no property relies on what they compute.
- How `GitHubProjectUnknownFieldError` is constructed (imported from `index.js`) is not part of this model. The error is the `UnknownFieldError` variant with the three values the source passes to it.
- The GraphQL query that produces the nodes, and the iteration configuration's other properties (such as duration and start day), are not part of this model. `IterationConfig` keeps the two iteration lists, and the whole value is passed through unchanged.
- JavaScript object semantics are not modelled. Examples: `in` also finds keys on the prototype chain, so an alias such as `toString` would read as seeded; `Object.entries` lists integer-like keys first; `typeof null` is `"object"`; `optional` may be a non-boolean truthy value. The model uses ordinary maps, declaration order and a boolean `optional`.
- ProjectFieldsNodesToFieldsMap: requires distinct aliases, because the source's configuration is an object whose keys cannot repeat.
- Running the build twice on the same inputs gives the same map, and renaming an alias moves its entry without changing the node it resolves to. Both follow from the build being a function of its inputs in which the alias is never matched; neither is stated as a separate lemma.
- The test fixture `test/fixtures/add-item/issue/new-issue-item.js` is static data with no behaviour to model.
