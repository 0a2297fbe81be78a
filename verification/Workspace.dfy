/** The isolated case workspace and the outcome of one pipeline run in it. */
module Workspace {
  import opened Common
  import opened Json
  import opened JsonPointer
  import opened Plan

  /** A file carries its decoded text, its size and the result of parsing that text as JSON. */
  datatype Node =
    | File(text: string, bytes: nat, json: Option<Json>)
    | Directory(entries: seq<Entry>)
    | Symlink

  datatype Entry = Entry(name: string, symlink: bool)

  type Files = map<string, Node>

  const MAX_ASSERTION_FILE_BYTES: nat := 2 * 1024 * 1024

  ghost predicate ValidFiles(files: Files) {
    forall path | path in files && files[path].File? && files[path].json.Some? :: Valid(files[path].json.value)
  }

  /** A regular file within the assertion read limit. */
  predicate Readable(files: Files, path: string) {
    path in files && files[path].File? && files[path].bytes <= MAX_ASSERTION_FILE_BYTES
  }

  /** What the Host keeps of a produced source: digest, size and the selected text. */
  datatype SourceRead = SourceRead(digest: Digest<string>, bytes: nat, text: string)

  /** readTrialSourceText: a bounded regular JSON file whose pointer selects a nonblank string. */
  function ReadSource(files: Files, path: string, pointer: string): Option<SourceRead> {
    if !Readable(files, path) || files[path].json.None? then None
    else match Lookup(files[path].json.value, pointer)
      case Some(Str(s)) =>
        if Blank(s) then None else Some(SourceRead(Sha256(files[path].text), files[path].bytes, s))
      case _ => None
  }

  /** The final state of one task of a run. */
  datatype TaskState = TaskState(
    status: TaskStatus,
    hasResult: bool,
    declaredArtifact: Option<string>,
    dependsOn: seq<string>)

  datatype RunResult = RunResult(runId: string, states: map<string, TaskState>)
}
