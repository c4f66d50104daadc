/** The record shapes the four analysis stages leave in the session state (the
    pydantic output schemas), read the way the report tools read them: as
    dictionaries whose every key may be missing, so each field is an `Option`
    and each list field is an `Option` of a sequence (`"key" in actor`).

    The session state is the one shared key-value store of a run; `State` has
    one field per key the tools read or write. A stage slot can also hold raw
    text, because one ingestion tool stores the document text under the
    requirements key. */
module Records {
  import opened Wrappers

  datatype Requirement = Requirement(
    id: Option<string>,
    name: Option<string>,
    source: Option<string>,
    kind: Option<string>,          // the `type` field
    detail: Option<string>,
    coveredUsr: Option<string>)

  /** `UserRequirementsOutput`; `otherKeys` counts keys the renderers never read. */
  datatype RequirementsOutput = RequirementsOutput(
    requirements: Option<seq<Requirement>>,
    otherKeys: nat)
  {
    /** Python truthiness of the dictionary: it is non-empty. */
    predicate Truthy() {
      requirements.Some? || otherKeys > 0
    }
  }

  datatype Interaction = Interaction(
    target: Option<string>,
    interactionType: Option<string>,
    description: Option<string>)

  datatype Actor = Actor(
    id: Option<string>,
    name: Option<string>,
    role: Option<string>,
    responsibilities: Option<seq<string>>,
    permissions: Option<seq<string>>,
    interactions: Option<seq<Interaction>>)

  datatype ActorsOutput = ActorsOutput(
    actors: Option<seq<Actor>>,
    actorHierarchy: Option<string>,
    stakeholderSummary: Option<string>,
    otherKeys: nat)
  {
    predicate Truthy() {
      actors.Some? || actorHierarchy.Some? || stakeholderSummary.Some? || otherKeys > 0
    }
  }

  datatype DataObject = DataObject(
    id: Option<string>,
    name: Option<string>,
    description: Option<string>)

  datatype DataObjectsOutput = DataObjectsOutput(
    dataObjects: Option<seq<DataObject>>,
    otherKeys: nat)
  {
    predicate Truthy() {
      dataObjects.Some? || otherKeys > 0
    }
  }

  datatype UseCase = UseCase(
    id: Option<string>,
    name: Option<string>,
    actors: Option<seq<string>>,
    description: Option<string>,
    preconditions: Option<seq<string>>,
    postconditions: Option<seq<string>>)

  datatype UseCasesOutput = UseCasesOutput(
    useCases: Option<seq<UseCase>>,
    otherKeys: nat)
  {
    predicate Truthy() {
      useCases.Some? || otherKeys > 0
    }
  }

  /** What a stage key holds: nothing, a raw string, or the stage's record. */
  datatype Slot<T> = Absent | Text(text: string) | Dict(dict: T)

  /** The session state, one field per key:
      requirements "user_requirements_extraction", actors "ac_agent_output",
      dataObjects "do_agent_output", useCases "uc_agent_output",
      analystOutput "business_analyst_output", extractedContent
      "extracted_content", documentProcessed "document_processed" (absent is
      false), currentFile "current_file", availableDocFiles
      "available_doc_files", savedFiles "saved_files", workingDirectory
      "working_directory". */
  datatype State = State(
    requirements: Slot<RequirementsOutput>,
    actors: Slot<ActorsOutput>,
    dataObjects: Slot<DataObjectsOutput>,
    useCases: Slot<UseCasesOutput>,
    analystOutput: Option<string>,
    extractedContent: Option<string>,
    documentProcessed: bool,
    currentFile: Option<string>,
    availableDocFiles: Option<seq<string>>,
    savedFiles: Option<seq<string>>,
    workingDirectory: Option<string>)

  /** How a per-stage exporter treats a slot: `state.get(key, {})`, then
      `if entry:`, then `entry.get(...)`. */
  datatype Lookup<T> = Skip | Use(value: T) | Crash

  /** `state.get(key, {})` is falsy when the key is absent or holds an empty
      value; a non-empty string is truthy but has no `.get`, so the export
      raises. */
  function LookupTruthy<T>(slot: Slot<T>, truthy: T -> bool): (r: Lookup<T>)
    ensures r.Crash? <==> slot.Text? && slot.text != ""
    ensures r.Use? <==> slot.Dict? && truthy(slot.dict)
    ensures r.Use? ==> r.value == slot.dict
  {
    match slot
    case Absent => Skip
    case Text(s) => if s == "" then Skip else Crash
    case Dict(d) => if truthy(d) then Use(d) else Skip
  }

  /** How the combined report treats a slot: `if key in state:` then
      `state[key].get(...)`, which raises on any string, even an empty one,
      and renders a present but empty dictionary. */
  function LookupPresent<T>(slot: Slot<T>): (r: Lookup<T>)
    ensures r.Crash? <==> slot.Text?
    ensures r.Use? <==> slot.Dict?
    ensures r.Use? ==> r.value == slot.dict
  {
    match slot
    case Absent => Skip
    case Text(_) => Crash
    case Dict(d) => Use(d)
  }
}
