/** Negative prerequisite cases: which plans are accepted, and what distinguishes a probe's run from its baseline's. */
module Prerequisites {
  import opened Common
  import opened Ordering
  import opened Plan

  // ----- Lexical rules -----

  predicate IsWord(c: char) {
    IsLetter(c) || c == '_' || '0' <= c <= '9'
  }

  function UpperChar(c: char): char {
    if 'a' <= c <= 'z' then c - 'a' + 'A' else c
  }

  /** toUpperCase; environment names are Basic Latin. */
  function Upper(s: string): string {
    if s == [] then [] else [UpperChar(s[0])] + Upper(s[1..])
  }

  const USER_NAMES: set<string> := {"PATH", "HOME", "USER", "USERNAME", "SHELL"}
  const TEMP_NAMES: set<string> := {"TMPDIR", "TEMP", "TMP"}
  const WINDOWS_NAMES: set<string> := {"WINDIR", "COMSPEC", "PATHEXT"}
  const OTHER_NAMES: set<string> := {
    "SYSTEMROOT", "USERPROFILE", "PIPELINE_SHELL", "__PROTO__", "CONSTRUCTOR", "PROTOTYPE"}

  function Reserved(): set<string> {
    USER_NAMES + TEMP_NAMES + WINDOWS_NAMES + OTHER_NAMES
  }

  const RESERVED_PREFIXES: seq<string> := [
    "OPENCODE_", "NODE_", "BUN_", "LD_", "DYLD_", "PYTHON", "TAGMA_TRIAL_", "TAGMA_WORKSPACE_RUNTIME"]

  predicate ValidName(name: string) {
    && 1 <= |name| <= 128 && (IsLetter(name[0]) || name[0] == '_')
    && (forall i | 0 <= i < |name| :: IsWord(name[i]))
    && Upper(name) !in Reserved()
    && (forall i | 0 <= i < |RESERVED_PREFIXES| :: !(RESERVED_PREFIXES[i] <= Upper(name)))
  }

  predicate ValidValue(value: Option<string>) {
    value.Some? ==> '\0' !in value.value && Utf8Length(value.value) <= 4096
  }

  /** A letter or underscore, then word characters or hyphens. */
  predicate IsSegment(s: string) {
    s != "" && (IsLetter(s[0]) || s[0] == '_') && forall i | 0 <= i < |s| :: IsWord(s[i]) || s[i] == '-'
  }

  predicate ValidTaskId(id: string) {
    exists dot | 0 <= dot < |id| :: id[dot] == '.' && IsSegment(id[..dot]) && IsSegment(id[dot + 1..])
  }

  predicate ValidCaseId(id: string) {
    1 <= |id| <= 64 && IsLetter(id[0]) && forall i | 0 <= i < |id| :: IsWord(id[i]) || id[i] == '-'
  }

  // ----- One case -----

  function NullCount(environment: seq<EnvironmentItem>): nat {
    if environment == [] then 0 else (if environment[0].value.None? then 1 else 0) + NullCount(environment[1..])
  }

  function UpperNames(environment: seq<EnvironmentItem>): (names: seq<string>)
    ensures |names| == |environment|
    ensures forall i | 0 <= i < |names| :: names[i] == Upper(environment[i].name)
  {
    seq(|environment|, i requires 0 <= i < |environment| => Upper(environment[i].name))
  }

  predicate ValidItem(item: EnvironmentItem) {
    ValidName(item.name) && ValidValue(item.value)
  }

  ghost predicate ValidEnvironment(environment: seq<EnvironmentItem>, valid: EnvironmentItem -> bool) {
    (forall i | 0 <= i < |environment| :: valid(environment[i])) && Distinct(UpperNames(environment))
  }

  function FaultCount(c: Case): nat {
    |c.deniedManualTasks| + NullCount(c.environment)
  }

  /** A negative case changes exactly one prerequisite; any other case changes none. */
  ghost predicate ValidControls(c: Case) {
    && |c.environment| <= 32 && ValidEnvironment(c.environment, ValidItem)
    && |c.deniedManualTasks| <= 1 && (forall id | id in c.deniedManualTasks :: ValidTaskId(id))
    && (c.baselineCaseId.Some? ==> ValidCaseId(c.baselineCaseId.value))
    && FaultCount(c) == (if c.baselineCaseId.Some? then 1 else 0)
  }

  method CheckEnvironment(environment: seq<EnvironmentItem>, valid: EnvironmentItem -> bool)
    returns (accepted: bool, nulls: nat)
    ensures accepted <==> ValidEnvironment(environment, valid)
    ensures accepted ==> nulls == NullCount(environment)
  {
    var names: set<string> := {};
    ghost var uppers := UpperNames(environment);
    nulls := 0;
    var i := 0;
    while i < |environment|
      invariant 0 <= i <= |environment|
      invariant SeenNames(names, uppers, i)
      invariant forall k | 0 <= k < i :: valid(environment[k])
      invariant nulls + NullCount(environment[i..]) == NullCount(environment)
    {
      var item := environment[i];
      var upper := Upper(item.name);
      SeeName(names, uppers, i);
      if !valid(item) || upper in names {
        return false, nulls;
      }
      names := names + {upper};
      assert environment[i..][1..] == environment[i + 1..];
      nulls := nulls + if item.value.None? then 1 else 0;
      i := i + 1;
    }
    accepted := true;
  }

  method NormalizeCase(c: Case) returns (accepted: bool)
    ensures accepted <==> ValidControls(c)
  {
    if |c.environment| > 32 {
      return false;
    }
    var valid, nulls := CheckEnvironment(c.environment, ValidItem);
    if !valid || |c.deniedManualTasks| > 1 || exists id | id in c.deniedManualTasks :: !ValidTaskId(id) {
      return false;
    }
    var faultCount := |c.deniedManualTasks| + nulls;
    if c.baselineCaseId.Some? && !ValidCaseId(c.baselineCaseId.value) {
      return false;
    }
    if faultCount > 1 || (c.baselineCaseId.Some? && faultCount != 1) {
      return false;
    }
    accepted := !(faultCount == 1 && c.baselineCaseId.None?);
  }

  // ----- The whole plan -----

  function Texts<T>(items: seq<T>, text: T -> string): seq<string> {
    if items == [] then [] else [text(items[0])] + Texts(items[1..], text)
  }

  /** sameList: the sorted JSON texts of the items agree. */
  predicate SameList<T>(a: seq<T>, b: seq<T>, text: T -> string) {
    SortStrings(Texts(a, text)) == SortStrings(Texts(b, text))
  }

  /** JSON.stringify of different fixtures, or of different strings, gives different texts. */
  datatype JsonTexts = JsonTexts(ofString: string -> string, ofFixture: Fixture -> string)

  ghost predicate Injective<T(!new)>(text: T -> string) {
    forall x, y :: text(x) == text(y) ==> x == y
  }

  ghost predicate Faithful(t: JsonTexts) {
    Injective(t.ofString) && Injective(t.ofFixture)
  }

  lemma {:induction false} TextsCount<T(!new)>(items: seq<T>, text: T -> string, x: T)
    requires Injective(text)
    ensures multiset(Texts(items, text))[text(x)] == multiset(items)[x]
  {
    if items != [] {
      TextsCount(items[1..], text, x);
      assert items == [items[0]] + items[1..];
    }
  }

  lemma {:induction false} TextsOnly<T>(items: seq<T>, text: T -> string, s: string)
    requires s in Texts(items, text)
    ensures exists x :: x in items && text(x) == s
  {
    if s != text(items[0]) {
      TextsOnly(items[1..], text, s);
    }
  }

  lemma TextsCompare<T(!new)>(a: seq<T>, b: seq<T>, text: T -> string, s: string)
    requires Injective(text) && multiset(a) == multiset(b)
    ensures multiset(Texts(a, text))[s] == multiset(Texts(b, text))[s]
  {
    if s in Texts(a, text) + Texts(b, text) {
      var x := TextSource(a, b, text, s);
      TextsCount(a, text, x);
      TextsCount(b, text, x);
    }
  }

  lemma TextSource<T>(a: seq<T>, b: seq<T>, text: T -> string, s: string) returns (x: T)
    requires s in Texts(a, text) + Texts(b, text)
    ensures text(x) == s
  {
    if s in Texts(a, text) {
      TextsOnly(a, text, s);
      x :| x in a && text(x) == s;
    } else {
      TextsOnly(b, text, s);
      x :| x in b && text(x) == s;
    }
  }

  /** sameList compares lists as multisets. */
  lemma SameListMeaning<T(!new)>(a: seq<T>, b: seq<T>, text: T -> string)
    requires Injective(text)
    ensures SameList(a, b, text) <==> multiset(a) == multiset(b)
  {
    SortStringsCanonical(Texts(a, text), Texts(b, text));
    if multiset(a) == multiset(b) {
      forall s
        ensures multiset(Texts(a, text))[s] == multiset(Texts(b, text))[s]
      {
        TextsCompare(a, b, text, s);
      }
      assert multiset(Texts(a, text)) == multiset(Texts(b, text));
    }
    if SameList(a, b, text) {
      forall x
        ensures multiset(a)[x] == multiset(b)[x]
      {
        TextsCount(a, text, x);
        TextsCount(b, text, x);
      }
      assert multiset(a) == multiset(b);
    }
  }

  /** The last case with an id, as a Map built in order gives it. */
  function ById(cases: seq<Case>, id: string): Option<Case> {
    if cases == [] then None
    else if cases[|cases| - 1].id == id then Some(cases[|cases| - 1])
    else ById(cases[..|cases| - 1], id)
  }

  predicate AssertsAnyStatus(c: Case, taskId: string) {
    exists i | 0 <= i < |c.expectations| :: c.expectations[i].TaskStatusIs? && c.expectations[i].taskId == taskId
  }

  predicate SameSetup(c: Case, base: Case, t: JsonTexts) {
    && SameList(c.targets, base.targets, t.ofString)
    && SameList(c.fixtures, base.fixtures, t.ofFixture)
    && SameList(c.generatedInputs, base.generatedInputs, t.ofString)
  }

  /** A negative case against its baseline. */
  ghost predicate ProbesBaseline(c: Case, base: Case, t: JsonTexts) {
    && base.baselineCaseId.None?
    && SameSetup(c, base, t)
    && (forall id | id in c.targets :: AssertsStatus(base, id, Success) && AssertsAnyStatus(c, id))
    && (forall id | id in c.deniedManualTasks :: AssertsStatus(c, id, Blocked))
    && (forall item | item in c.environment && item.value.Some? :: item in base.environment)
  }

  ghost predicate Grounded(cases: seq<Case>, c: Case, t: JsonTexts) {
    c.baselineCaseId.Some? ==>
      ById(cases, c.baselineCaseId.value).Some? && ProbesBaseline(c, ById(cases, c.baselineCaseId.value).value, t)
  }

  ghost predicate Accepted(cases: seq<Case>, t: JsonTexts) {
    && (forall i | 0 <= i < |cases| :: ValidControls(cases[i]))
    && (forall i | 0 <= i < |cases| :: Grounded(cases, cases[i], t))
  }

  method CheckProbe(c: Case, base: Case, t: JsonTexts) returns (accepted: bool)
    ensures accepted <==> ProbesBaseline(c, base, t)
  {
    if base.baselineCaseId.Some? || !SameSetup(c, base, t) {
      return false;
    }
    for i := 0 to |c.targets|
      invariant forall k | 0 <= k < i :: AssertsStatus(base, c.targets[k], Success) && AssertsAnyStatus(c, c.targets[k])
    {
      if !AssertsStatus(base, c.targets[i], Success) || !AssertsAnyStatus(c, c.targets[i]) {
        return false;
      }
    }
    for i := 0 to |c.deniedManualTasks|
      invariant forall k | 0 <= k < i :: AssertsStatus(c, c.deniedManualTasks[k], Blocked)
    {
      if !AssertsStatus(c, c.deniedManualTasks[i], Blocked) {
        return false;
      }
    }
    for i := 0 to |c.environment|
      invariant forall k | 0 <= k < i && c.environment[k].value.Some? :: c.environment[k] in base.environment
    {
      if c.environment[i].value.Some? && c.environment[i] !in base.environment {
        return false;
      }
    }
    accepted := true;
  }

  predicate IsNegative(c: Case) {
    c.baselineCaseId.Some?
  }

  predicate NotAfter(a: Case, b: Case) {
    !IsNegative(a) || IsNegative(b)
  }

  method CheckControls(cases: seq<Case>) returns (accepted: bool)
    ensures accepted <==> forall i | 0 <= i < |cases| :: ValidControls(cases[i])
  {
    for i := 0 to |cases|
      invariant forall k | 0 <= k < i :: ValidControls(cases[k])
    {
      var valid := NormalizeCase(cases[i]);
      if !valid {
        return false;
      }
    }
    accepted := true;
  }

  method CheckBaselines(cases: seq<Case>, t: JsonTexts) returns (accepted: bool)
    ensures accepted <==> forall i | 0 <= i < |cases| :: Grounded(cases, cases[i], t)
  {
    for i := 0 to |cases|
      invariant forall k | 0 <= k < i :: Grounded(cases, cases[k], t)
    {
      if cases[i].baselineCaseId.Some? {
        var base := ById(cases, cases[i].baselineCaseId.value);
        if base.None? {
          return false;
        }
        var valid := CheckProbe(cases[i], base.value, t);
        if !valid {
          return false;
        }
      }
    }
    accepted := true;
  }

  /** An accepted plan keeps its cases, negative ones moved to the end. */
  method NormalizeTrialPrerequisiteCases(cases: seq<Case>, t: JsonTexts) returns (normalized: Option<seq<Case>>)
    ensures normalized.Some? <==> Accepted(cases, t)
    ensures normalized.Some? ==>
              normalized.value == Flagged(cases, IsNegative, false) + Flagged(cases, IsNegative, true)
  {
    var valid := CheckControls(cases);
    if !valid {
      return None;
    }
    var grounded := CheckBaselines(cases, t);
    if !grounded {
      return None;
    }
    SortByFlag(cases, IsNegative, NotAfter);
    normalized := Some(Sort(cases, NotAfter));
  }

  lemma {:induction false} ByIdFinds(cases: seq<Case>, id: string)
    ensures ById(cases, id).Some? ==> ById(cases, id).value in cases && ById(cases, id).value.id == id
    ensures ById(cases, id).None? ==> forall c | c in cases :: c.id != id
  {
    if cases != [] {
      ByIdFinds(cases[..|cases| - 1], id);
    }
  }

  lemma {:induction false} FlaggedHolds<T>(items: seq<T>, flag: T -> bool, want: bool, x: T)
    ensures x in Flagged(items, flag, want) <==> x in items && flag(x) == want
  {
    if items != [] {
      FlaggedHolds(items[1..], flag, want, x);
    }
  }

  /** The test setup of two cases is the same, up to the order in which it is written. */
  ghost predicate SameTestSetup(a: Case, b: Case) {
    && multiset(a.targets) == multiset(b.targets)
    && multiset(a.fixtures) == multiset(b.fixtures)
    && multiset(a.generatedInputs) == multiset(b.generatedInputs)
  }

  /**
   * Every negative case of an accepted plan comes after a positive case with the baseline's id, which has the same
   * targets, fixtures and generated inputs and expects each of them to succeed.
   */
  lemma NegativeRunsAfterBaseline(cases: seq<Case>, t: JsonTexts, normalized: seq<Case>, j: nat) returns (i: nat)
    requires Accepted(cases, t) && Faithful(t)
    requires normalized == Flagged(cases, IsNegative, false) + Flagged(cases, IsNegative, true)
    requires j < |normalized| && normalized[j].baselineCaseId.Some?
    ensures i < j && ById(cases, normalized[j].baselineCaseId.value) == Some(normalized[i])
    ensures normalized[i].id == normalized[j].baselineCaseId.value && normalized[i].baselineCaseId.None?
    ensures ProbesBaseline(normalized[j], normalized[i], t) && SameTestSetup(normalized[j], normalized[i])
    ensures forall id | id in normalized[j].targets :: AssertsStatus(normalized[i], id, Success)
  {
    var plain, flagged := Flagged(cases, IsNegative, false), Flagged(cases, IsNegative, true);
    var c := normalized[j];
    FlaggedAll(cases, IsNegative, false);
    FlaggedHolds(cases, IsNegative, true, c);
    FlaggedHolds(cases, IsNegative, false, c);
    assert c in flagged && j >= |plain|;
    var k :| 0 <= k < |cases| && cases[k] == c;
    assert Grounded(cases, cases[k], t);
    var base := ById(cases, c.baselineCaseId.value).value;
    ByIdFinds(cases, c.baselineCaseId.value);
    FlaggedHolds(cases, IsNegative, false, base);
    i :| 0 <= i < |plain| && plain[i] == base;
    SameListMeaning(c.targets, base.targets, t.ofString);
    SameListMeaning(c.fixtures, base.fixtures, t.ofFixture);
    SameListMeaning(c.generatedInputs, base.generatedInputs, t.ofString);
  }
}
