/** evaluateTrialExpectation: which expectations a finished run and its files satisfy. */
module Evaluation {
  import opened Common
  import opened Json
  import opened JsonPointer
  import opened Plan
  import opened Workspace
  import opened PreservedLines
  import opened SourceObserver

  /** Everything an expectation may look at. */
  datatype Outcome = Outcome(files: Files, run: Option<RunResult>, observedRunId: string, observations: Observations)

  /** The entry is no link, and its name ends with the suffix, whatever the case of letters. */
  predicate EntryMatches(entry: Entry, suffix: Option<string>) {
    && !entry.symlink
    && (suffix.None? || (|suffix.value| <= |entry.name|
                         && Lower(entry.name)[|entry.name| - |suffix.value|..] == Lower(suffix.value)))
  }

  function MatchingEntries(entries: seq<Entry>, suffix: Option<string>): nat {
    if entries == [] then 0
    else
      var last := |entries| - 1;
      MatchingEntries(entries[..last], suffix) + if EntryMatches(entries[last], suffix) then 1 else 0
  }

  function Size(value: Json): nat {
    match value
    case Arr(items) => |items|
    case Obj(members) => |members|
    case _ => 0
  }

  predicate IsCollection(value: Json, kind: CollectionKind) {
    if kind.ArrayKind? then value.Arr? else value.Obj?
  }

  /** The checks on the value a JSON Pointer selects. */
  ghost predicate PointerPasses(o: Outcome, e: Expectation, value: Json)
    requires e.PointerTextOccurrence? || e.PointerEquals? || e.PointerCollection?
  {
    match e
    case PointerCollection(_, _, kind, nonempty) => IsCollection(value, kind) && (Size(value) > 0 <==> nonempty)
    case PointerTextOccurrence(_, _, sourcePath, present) =>
      && Readable(o.files, sourcePath)
      && value.Str? && !Blank(value.s)
      && (Contains(o.files[sourcePath].text, value.s) <==> present)
    case PointerEquals(_, _, expected) => DeepStrictEqual(value, expected)
  }

  ghost predicate Passes(o: Outcome, e: Expectation) {
    match e
    case SemanticReview(_, _) => false
    case TaskStatusIs(taskId, status) =>
      o.run.Some? && taskId in o.run.value.states && o.run.value.states[taskId].status == status
    case PathExists(path) => path in o.files && !o.files[path].Symlink?
    case PathNotExists(path) => !(path in o.files && !o.files[path].Symlink?)
    case FileContains(path, text) => Readable(o.files, path) && Contains(o.files[path].text, text)
    case FileNotContains(path, text) => Readable(o.files, path) && !Contains(o.files[path].text, text)
    case FileEquals(path, text) => Readable(o.files, path) && o.files[path].text == text
    case FilePreservesLines(path, _, text) =>
      Readable(o.files, path) && Preserved(o.files[path].text, NonblankLines(text))
    case JsonValid(path) => Readable(o.files, path) && o.files[path].json.Some?
    case SourceTextOccurrence(_, _, _, _, _, _) => RelationPasses(o.files, e, o.run, o.observedRunId, o.observations)
    case DirectoryEntryCount(path, suffix, min, max) =>
      && path in o.files && o.files[path].Directory?
      && (min.None? || MatchingEntries(o.files[path].entries, suffix) >= min.value)
      && (max.None? || MatchingEntries(o.files[path].entries, suffix) <= max.value)
    case _ =>
      && Readable(o.files, e.path)
      && o.files[e.path].json.Some?
      && Lookup(o.files[e.path].json.value, e.pointer).Some?
      && PointerPasses(o, e, Lookup(o.files[e.path].json.value, e.pointer).value)
  }

  /** Every expectation that is not left to a semantic review holds. */
  ghost predicate PassesDeterministic(o: Outcome, expectations: seq<Expectation>) {
    forall e | e in expectations && !e.SemanticReview? :: Passes(o, e)
  }

  // ----- The evaluation as the program makes it -----

  method CountEntries(entries: seq<Entry>, suffix: Option<string>) returns (count: nat)
    ensures count == MatchingEntries(entries, suffix)
  {
    count := 0;
    for i := 0 to |entries|
      invariant count == MatchingEntries(entries[..i], suffix)
    {
      assert entries[..i + 1][..i] == entries[..i];
      if EntryMatches(entries[i], suffix) {
        count := count + 1;
      }
    }
    assert entries[..|entries|] == entries;
  }

  /** The JSON branches, once the file was parsed. */
  method EvaluatePointer(o: Outcome, e: Expectation, document: Json) returns (passed: bool)
    requires e.PointerTextOccurrence? || e.PointerEquals? || e.PointerCollection?
    requires Valid(document)
    ensures passed <==> Lookup(document, e.pointer).Some? && PointerPasses(o, e, Lookup(document, e.pointer).value)
  {
    var actual := ResolveJsonPointer(document, e.pointer);
    if actual.NotFound? {
      return false;
    }
    match e {
      case PointerCollection(_, _, kind, nonempty) =>
        if !IsCollection(actual.value, kind) {
          return false;
        }
        passed := (Size(actual.value) > 0) == nonempty;
      case PointerTextOccurrence(_, _, sourcePath, present) =>
        if !Readable(o.files, sourcePath) || !actual.value.Str? || Blank(actual.value.s) {
          return false;
        }
        passed := Includes(o.files[sourcePath].text, actual.value.s) == present;
      case PointerEquals(_, _, expected) =>
        passed := DeepStrictEqual(actual.value, expected);
    }
  }

  /** The branches that read a regular file within the read limit. */
  method EvaluateFile(o: Outcome, e: Expectation) returns (passed: bool)
    requires ValidFiles(o.files) && HasPath(e) && Readable(o.files, e.path)
    requires !e.SemanticReview? && !e.PathExists? && !e.PathNotExists? && !e.DirectoryEntryCount?
    ensures passed <==> Passes(o, e)
  {
    var file := o.files[e.path];
    if e.SourceTextOccurrence? {
      passed := CheckRelation(o.files, e, o.run, o.observedRunId, o.observations);
    } else if e.JsonValid? {
      passed := file.json.Some?;
    } else if e.PointerCollection? || e.PointerTextOccurrence? || e.PointerEquals? {
      if file.json.None? {
        return false;
      }
      passed := EvaluatePointer(o, e, file.json.value);
    } else if e.FileEquals? {
      passed := file.text == e.text;
    } else if e.FilePreservesLines? {
      passed := PreservesLines(file.text, e.text);
    } else {
      passed := Includes(file.text, e.text) == e.FileContains?;
    }
  }

  method EvaluateTrialExpectation(o: Outcome, e: Expectation) returns (passed: bool)
    requires ValidFiles(o.files)
    ensures passed <==> Passes(o, e)
  {
    if e.SemanticReview? {
      return false;
    }
    if e.TaskStatusIs? {
      return o.run.Some? && e.taskId in o.run.value.states && o.run.value.states[e.taskId].status == e.status;
    }
    var found := e.path in o.files && !o.files[e.path].Symlink?;
    if e.PathExists? || e.PathNotExists? {
      return found == e.PathExists?;
    }
    if e.DirectoryEntryCount? {
      if !found || !o.files[e.path].Directory? {
        return false;
      }
      var count := CountEntries(o.files[e.path].entries, e.suffix);
      return (e.min.None? || count >= e.min.value) && (e.max.None? || count <= e.max.value);
    }
    if !Readable(o.files, e.path) {
      return false;
    }
    passed := EvaluateFile(o, e);
  }

  // ----- What the expectations say of each other -----

  /** The two ask for opposite answers about the same thing. */
  predicate Opposed(e: Expectation, f: Expectation) {
    || (e.PathExists? && f == PathNotExists(e.path))
    || (e.FileContains? && f == FileNotContains(e.path, e.text))
    || (e.PointerCollection? && f == PointerCollection(e.path, e.pointer, e.kind, !e.nonempty))
    || (e.PointerTextOccurrence? && f == PointerTextOccurrence(e.path, e.pointer, e.sourcePath, !e.present))
    || (e.SourceTextOccurrence? && f == SourceTextOccurrence(e.path, e.sourcePath, e.sourcePointer, e.producerTaskId,
                                                             e.consumerTaskId, !e.present))
  }

  /** The value that is compared exists and has the right kind. */
  ghost predicate Inspectable(o: Outcome, e: Expectation) {
    match e
    case PathExists(_) => true
    case FileContains(path, _) => path in o.files && o.files[path].File? && o.files[path].bytes <= 2097152
    case PointerCollection(path, pointer, kind, _) =>
      && path in o.files && o.files[path].File? && o.files[path].bytes <= 2097152 && o.files[path].json.Some?
      && (match Lookup(o.files[path].json.value, pointer)
          case Some(Arr(_)) => kind == ArrayKind
          case Some(Obj(_)) => kind == ObjectKind
          case _ => false)
    case PointerTextOccurrence(path, pointer, source, _) =>
      && path in o.files && o.files[path].File? && o.files[path].bytes <= 2097152 && o.files[path].json.Some?
      && source in o.files && o.files[source].File? && o.files[source].bytes <= 2097152
      && (match Lookup(o.files[path].json.value, pointer)
          case Some(Str(s)) => !Blank(s)
          case _ => false)
    case _ => false
  }

  /** Opposed expectations never both pass, and one of them does exactly if there is something to compare. */
  lemma OpposedExclude(o: Outcome, e: Expectation, f: Expectation)
    requires Opposed(e, f)
    ensures !(Passes(o, e) && Passes(o, f))
    ensures !e.SourceTextOccurrence? ==> (Passes(o, e) || Passes(o, f) <==> Inspectable(o, e))
  {
  }

  /** A file that passes an exact comparison decides every other comparison of its text. */
  lemma EqualDecides(o: Outcome, path: string, text: string, other: string, source: string)
    requires Passes(o, FileEquals(path, text))
    ensures Passes(o, FileEquals(path, other)) <==> other == text
    ensures Passes(o, FileContains(path, other)) <==> Contains(text, other)
    ensures Passes(o, FileNotContains(path, other)) <==> !Contains(text, other)
    ensures Passes(o, FilePreservesLines(path, source, other)) <==> Preserved(text, NonblankLines(other))
    ensures Passes(o, PathExists(path)) && Passes(o, FilePreservesLines(path, source, text))
  {
    VerbatimCopyPasses("", text, "");
    assert "" + text + "" == text;
  }

  lemma EqualValue(document: Json, keys: seq<string>, expected: Json)
    requires Valid(document) && Valid(expected) && Evaluate(document, keys).Some?
    ensures DeepStrictEqual(Evaluate(document, keys).value, expected)
       <==> SameDocument(Evaluate(document, keys).value, expected, true)
  {
    EvaluateValid(document, keys);
    DeepStrictEqualMeaning(Evaluate(document, keys).value, expected);
  }

  /** A JSON comparison passes exactly if the pointer's keys lead to the same document as expected. */
  lemma EqualDocument(o: Outcome, path: string, pointer: string, expected: Json)
    requires ValidFiles(o.files) && Valid(expected)
    ensures Passes(o, PointerEquals(path, pointer, expected)) <==>
              && path in o.files && o.files[path].File? && o.files[path].bytes <= 2097152 && o.files[path].json.Some?
              && Evaluate(o.files[path].json.value, Keys(pointer)).Some?
              && SameDocument(Evaluate(o.files[path].json.value, Keys(pointer)).value, expected, true)
  {
    if Readable(o.files, path) && o.files[path].json.Some? && Evaluate(o.files[path].json.value, Keys(pointer)).Some? {
      EqualValue(o.files[path].json.value, Keys(pointer), expected);
    }
  }

  /** The positions of the entries that are no links and whose names end with the suffix. */
  ghost function Counted(entries: seq<Entry>, suffix: Option<string>): set<nat> {
    set i: nat | i < |entries| && !entries[i].symlink
                 && (suffix.None? || exists stem: string :: Lower(entries[i].name) == stem + Lower(suffix.value))
  }

  lemma SuffixMeaning(entry: Entry, suffix: string)
    ensures EntryMatches(entry, Some(suffix)) <==>
              !entry.symlink && exists stem: string :: Lower(entry.name) == stem + Lower(suffix)
  {
    var name, end := Lower(entry.name), Lower(suffix);
    assert |name| == |entry.name| && |end| == |suffix|;
    if EntryMatches(entry, Some(suffix)) {
      assert name == name[..|name| - |end|] + end;
    }
    if stem: string :| name == stem + end {
      assert name[|name| - |end|..] == end;
    }
  }

  lemma CountedNext(entries: seq<Entry>, suffix: Option<string>, last: nat)
    requires |entries| == last + 1
    ensures Counted(entries, suffix) ==
              Counted(entries[..last], suffix) + if EntryMatches(entries[last], suffix) then {last} else {}
  {
    if suffix.Some? {
      SuffixMeaning(entries[last], suffix.value);
    }
  }

  lemma {:induction false} CountMeaning(entries: seq<Entry>, suffix: Option<string>)
    ensures MatchingEntries(entries, suffix) == |Counted(entries, suffix)|
  {
    if entries == [] {
      assert Counted(entries, suffix) == {};
    } else {
      var last := |entries| - 1;
      CountMeaning(entries[..last], suffix);
      CountedNext(entries, suffix, last);
    }
  }

  /** A directory passes a count exactly if the number of its counted entries is within the bounds. */
  lemma EntryCountMeaning(o: Outcome, path: string, suffix: Option<string>, min: Option<nat>, max: Option<nat>)
    ensures Passes(o, DirectoryEntryCount(path, suffix, min, max)) <==>
              && path in o.files && o.files[path].Directory?
              && (min.Some? ==> min.value <= |Counted(o.files[path].entries, suffix)|)
              && (max.Some? ==> |Counted(o.files[path].entries, suffix)| <= max.value)
  {
    if path in o.files && o.files[path].Directory? {
      CountMeaning(o.files[path].entries, suffix);
    }
  }
}
