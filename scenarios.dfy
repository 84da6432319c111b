/**
 * Clients of the build: what a caller can conclude from the contracts alone
 * for a project with a "Title" and a "My Custom Field" field and no "Status"
 * field.
 */
module Scenarios {
  import opened Results
  import opened OptionIndex
  import opened ProjectFieldsMap

  function ExactState(): State
  {
    State((candidate: string, wanted: string) => candidate == wanted)
  }

  function IdentityOps(): StringOps
  {
    StringOps((s: string) => s, (s: string) => s)
  }

  function TwoNodes(): seq<FieldNode>
  {
    [FieldNode("F1", "Title", "TEXT", None, None),
     FieldNode("F3", "My Custom Field", "TEXT", None, None)]
  }

  /** An optional "Status" with no node keeps its placeholder; the other two resolve. */
  method OptionalStatusMissing()
  {
    var fields := [UserField("title", Bare("Title")),
                   UserField("status", Config("Status", true)),
                   UserField("custom", Bare("My Custom Field"))];
    var nodes := TwoNodes();
    assert FindNode(ExactState(), IdentityOps(), nodes, "Title") == Some(0);
    assert FindNode(ExactState(), IdentityOps(), nodes, "My Custom Field") == Some(1);
    assert !Matches(ExactState(), IdentityOps(), nodes[0], "Status");
    assert !Matches(ExactState(), IdentityOps(), nodes[1], "Status");
    var r := ProjectFieldsNodesToFieldsMap(ExactState(), IdentityOps(), fields, nodes);
    assert !UnmatchedRequired(ExactState(), IdentityOps(), nodes, fields[1]);
    assert r.Ok?;
    var m := r.value;
    assert fields[0].alias == "title" && fields[1].alias == "status" && fields[2].alias == "custom";
    assert m["title"].id == Some("F1") && m["title"].existsInProject && !m["title"].optional;
    assert m["custom"].id == Some("F3") && m["custom"].existsInProject;
    assert m["status"] == Placeholder("Status") && !m["status"].existsInProject;
  }

  /** The same "Status" made required aborts the build with the full error. */
  method RequiredStatusMissing()
  {
    var fields := [UserField("title", Bare("Title")),
                   UserField("status", Bare("Status")),
                   UserField("custom", Bare("My Custom Field"))];
    var nodes := TwoNodes();
    assert FindNode(ExactState(), IdentityOps(), nodes, "Title") == Some(0);
    assert !Matches(ExactState(), IdentityOps(), nodes[0], "Status");
    assert !Matches(ExactState(), IdentityOps(), nodes[1], "Status");
    assert UnmatchedRequired(ExactState(), IdentityOps(), nodes, fields[1]);
    var r := ProjectFieldsNodesToFieldsMap(ExactState(), IdentityOps(), fields, nodes);
    assert r.Err?;
    assert r.error == UnknownFieldError("Status", "status", ["Title", "My Custom Field"]);
  }

  /** A single-select field indexes its options both ways. */
  method SingleSelectIndices()
  {
    var options := [SelectOption("O1", "In Progress"), SelectOption("O2", "Done")];
    var node := FieldNode("F2", "Status", "SINGLE_SELECT", Some(options), None);
    ResolvedEntryFields(node, "Status", false);
    var e := ResolvedEntry(node, "Status", false);
    assert LastWithKey(options, OptionName, 0) && LastWithKey(options, OptionId, 1);
    assert e.optionsByValue.value["In Progress"] == "O1";
    assert e.optionsById.value["O2"] == "Done";
  }

  /** An iteration field indexes active and completed iterations and keeps its configuration. */
  method IterationIndices()
  {
    var config := IterationConfig([Iteration("I1", "Sprint 1")], [Iteration("I0", "Sprint 0")]);
    var node := FieldNode("F4", "Iteration", "ITERATION", None, Some(config));
    ResolvedEntryFields(node, "Iteration", true);
    var e := ResolvedEntry(node, "Iteration", true);
    assert AllIterations(config)[0].id == "I1" && AllIterations(config)[1].id == "I0";
    assert "I1" in e.optionsById.value && "I0" in e.optionsById.value;
    assert e.configuration == Some(config) && e.optional;
  }
}
