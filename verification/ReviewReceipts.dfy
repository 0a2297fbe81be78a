/** Review receipts: the case a trial assembles from its reviews, and the independent check of such a case. */
module ReviewReceipts {
  import opened Common
  import opened SemanticReview
  import Plan

  /** One semantic row of a case's expectation results. */
  datatype SemanticCheck = SemanticCheck(target: Target, runNumber: nat, request: Option<Digest<string>>, passed: bool)

  datatype CaseExpectation = Semantic(check: SemanticCheck) | Other(ok: bool)

  datatype CaseResult = CaseResult(
    id: string, success: bool, current: bool, runIds: seq<string>, reviews: seq<Receipt>, expectations: seq<CaseExpectation>)

  /** What the validator is told about the trial. */
  datatype Trial = Trial(identity: TrialIdentity, intentDigest: Digest<string>, configuration: Digest<Model>)

  function SemanticTargets(expectations: seq<Plan.Expectation>): seq<Target> {
    if expectations == [] then []
    else
      (if expectations[0].SemanticReview? then [Target(expectations[0].taskId, expectations[0].path)] else [])
      + SemanticTargets(expectations[1..])
  }

  function TargetsOf(c: Plan.Case): seq<Target> {
    SemanticTargets(c.expectations)
  }

  function SemanticChecks(expectations: seq<CaseExpectation>): seq<SemanticCheck> {
    if expectations == [] then []
    else (if expectations[0].Semantic? then [expectations[0].check] else []) + SemanticChecks(expectations[1..])
  }

  // ----- The validator -----

  function ForTarget(t: Target): Verdict -> bool {
    (v: Verdict) => v.taskId == t.taskId && v.path == t.path
  }

  function AtPath(path: string): Recorded -> bool {
    (r: Recorded) => r.path == path
  }

  function LinkedTo(t: Target, runNumber: nat, request: Digest<string>): SemanticCheck -> bool {
    (c: SemanticCheck) => c.target == t && c.runNumber == runNumber && c.request == Some(request)
  }

  predicate QuoteAcceptable(e: Evidence, path: string) {
    e.path == path && !Blank(e.quote) && Sha256(e.quote) == e.digest && 0 < e.length <= MAX_QUOTE
  }

  predicate VerdictAcceptable(v: Verdict, path: string) {
    v.opinion.Pass? && !Blank(v.reason) && exists i :: 0 <= i < |v.evidence| && QuoteAcceptable(v.evidence[i], path)
  }

  predicate TargetAcceptable(r: Receipt, checks: seq<SemanticCheck>, t: Target, runNumber: nat) {
    var rows, artifacts := Matching(r.verdicts, ForTarget(t)), Matching(r.artifacts, AtPath(t.path));
    && |rows| == 1 && VerdictAcceptable(rows[0], t.path)
    && |artifacts| == 1 && artifacts[0].role == Produced && 1 <= artifacts[0].bytes <= FILE_BYTES
    && |Matching(checks, LinkedTo(t, runNumber, r.request))| == 1
  }

  predicate HeaderAcceptable(r: Receipt, c: Plan.Case, runId: string, runNumber: nat, trial: Trial) {
    && r.grade == Passed && r.configuration == trial.configuration
    && ConfigurationDigest(r.model) == Some(trial.configuration)
    && r.response.Some? && r.sessionId.Some? && IsSession(r.sessionId.value)
    && r.identity == Identity(trial.identity, trial.intentDigest, c.id, runId, runNumber)
    && |r.verdicts| == |TargetsOf(c)| && |r.artifacts| <= 32
  }

  predicate RunAcceptable(c: Plan.Case, actual: CaseResult, checks: seq<SemanticCheck>, index: nat, trial: Trial)
    requires index < |actual.runIds| && index < |actual.reviews|
  {
    var r := actual.reviews[index];
    && HeaderAcceptable(r, c, actual.runIds[index], index + 1, trial)
    && forall i | 0 <= i < |TargetsOf(c)| :: TargetAcceptable(r, checks, TargetsOf(c)[i], index + 1)
  }

  /** A successful case of the current trial with one acceptable review of every target in every run. */
  ghost predicate CaseAcceptable(c: Plan.Case, actual: CaseResult, trial: Trial) {
    var checks := SemanticChecks(actual.expectations);
    && actual.success && actual.current
    && |actual.runIds| == c.runs && Distinct(actual.runIds) && |actual.reviews| == c.runs
    && |checks| == |TargetsOf(c)| * c.runs && (forall i | 0 <= i < |checks| :: checks[i].passed)
    && forall index | 0 <= index < c.runs :: RunAcceptable(c, actual, checks, index, trial)
  }

  function WithId(id: string): CaseResult -> bool {
    (r: CaseResult) => r.id == id
  }

  ghost predicate PlannedAcceptable(c: Plan.Case, results: seq<CaseResult>, trial: Trial) {
    TargetsOf(c) != [] ==>
      |Matching(results, WithId(c.id))| == 1 && CaseAcceptable(c, Matching(results, WithId(c.id))[0], trial)
  }

  ghost predicate ReceiptsValid(cases: seq<Plan.Case>, results: seq<CaseResult>, trial: Option<Trial>) {
    (exists i :: 0 <= i < |cases| && TargetsOf(cases[i]) != []) ==>
      && trial.Some? && |results| <= 32
      && forall i | 0 <= i < |cases| :: PlannedAcceptable(cases[i], results, trial.value)
  }

  method ValidateCase(c: Plan.Case, actual: CaseResult, trial: Trial) returns (valid: bool)
    ensures valid <==> CaseAcceptable(c, actual, trial)
    ensures valid <==> Documented(c, actual, trial)
  {
    AcceptanceMeaning(c, actual, trial);
    var ids := set id | id in actual.runIds;
    SetSizeDistinct(actual.runIds);
    if !actual.success || !actual.current || |actual.runIds| != c.runs || |ids| != c.runs || |actual.reviews| != c.runs {
      return false;
    }
    var checks := SemanticChecks(actual.expectations);
    if |checks| != |TargetsOf(c)| * c.runs || exists i :: 0 <= i < |checks| && !checks[i].passed {
      return false;
    }
    for index := 0 to c.runs
      invariant forall k | 0 <= k < index :: RunAcceptable(c, actual, checks, k, trial)
    {
      var acceptable := RunAcceptable(c, actual, checks, index, trial);
      if !acceptable {
        return false;
      }
    }
    valid := true;
  }

  method ValidateTrialSemanticReviewReceipts(cases: seq<Plan.Case>, results: seq<CaseResult>, trial: Option<Trial>)
    returns (valid: bool)
    ensures valid <==> ReceiptsValid(cases, results, trial)
  {
    if forall i | 0 <= i < |cases| :: TargetsOf(cases[i]) == [] {
      return true;
    }
    if trial.None? || |results| > 32 {
      return false;
    }
    for i := 0 to |cases|
      invariant forall k | 0 <= k < i :: PlannedAcceptable(cases[k], results, trial.value)
    {
      if TargetsOf(cases[i]) != [] {
        var matches := Matching(results, WithId(cases[i].id));
        if |matches| != 1 {
          return false;
        }
        var acceptable := ValidateCase(cases[i], matches[0], trial.value);
        if !acceptable {
          return false;
        }
      }
    }
    valid := true;
  }

  // ----- What an accepted case documents -----

  /** The plan asks for a review of this artifact of this task. */
  ghost predicate AsksFor(c: Plan.Case, t: Target) {
    exists i :: 0 <= i < |c.expectations| && c.expectations[i] == Plan.SemanticReview(t.path, t.taskId)
  }

  /** The receipt is of this run of this case in this trial, passed by the model the trial is configured with. */
  ghost predicate OfThisRun(r: Receipt, c: Plan.Case, runId: string, runNumber: nat, trial: Trial) {
    && r.identity.trial.stageId == trial.identity.stageId && r.identity.trial.trialId == trial.identity.trialId
    && r.identity.trial.yamlHash == trial.identity.yamlHash && r.identity.trial.planHash == trial.identity.planHash
    && r.identity.intentDigest == trial.intentDigest
    && r.identity.caseId == c.id && r.identity.runId == runId && r.identity.runNumber == runNumber
    && r.grade.Passed? && r.configuration == trial.configuration
    && Configurable(r.model) && trial.configuration == Sha256(r.model)
    && r.response.Some? && r.sessionId.Some? && IsSession(r.sessionId.value)
  }

  /** A model with bounded names that are not blank. */
  predicate Configurable(m: Model) {
    && !Blank(m.providerID) && Utf16Length(m.providerID) <= 200 && !Blank(m.modelID) && Utf16Length(m.modelID) <= 200
    && (m.variant.Some? ==> !Blank(m.variant.value) && Utf16Length(m.variant.value) <= 64)
  }

  /** The only verdict on the target passes it, for a stated reason, with a literal quote from that very file. */
  ghost predicate PassedOnce(r: Receipt, t: Target) {
    exists v :: 0 <= v < |r.verdicts|
      && r.verdicts[v].taskId == t.taskId && r.verdicts[v].path == t.path
      && (forall w | 0 <= w < |r.verdicts| && w != v :: !(r.verdicts[w].taskId == t.taskId && r.verdicts[w].path == t.path))
      && r.verdicts[v].opinion == Pass && !Blank(r.verdicts[v].reason)
      && Quotes(r.verdicts[v].evidence, t.path)
  }

  ghost predicate Quotes(evidence: seq<Evidence>, path: string) {
    exists q :: 0 <= q < |evidence| && evidence[q].path == path && !Blank(evidence[q].quote)
      && evidence[q].digest == Sha256(evidence[q].quote) && 1 <= evidence[q].length <= 512
  }

  /** The only artifact at the target's path was produced, and holds between one byte and 32 KiB. */
  ghost predicate ProducedOnce(r: Receipt, t: Target) {
    exists a :: 0 <= a < |r.artifacts|
      && r.artifacts[a].path == t.path && r.artifacts[a].role == Produced && 1 <= r.artifacts[a].bytes <= 32768
      && forall b | 0 <= b < |r.artifacts| && b != a :: r.artifacts[b].path != t.path
  }

  /** The only row of the case for the target and run names the receipt's request. */
  ghost predicate LinkedOnceTo(checks: seq<SemanticCheck>, t: Target, runNumber: nat, request: Digest<string>) {
    exists k :: 0 <= k < |checks| && Links(checks[k], t, runNumber, request)
      && forall j | 0 <= j < |checks| && j != k :: !Links(checks[j], t, runNumber, request)
  }

  predicate Links(check: SemanticCheck, t: Target, runNumber: nat, request: Digest<string>) {
    && check.target.taskId == t.taskId && check.target.path == t.path
    && check.runNumber == runNumber && check.request == Some(request)
  }

  /** What one receipt must show: its run, one row and one artifact for every review the plan asks for. */
  ghost predicate Documents(r: Receipt, c: Plan.Case, runId: string, runNumber: nat, trial: Trial) {
    && OfThisRun(r, c, runId, runNumber, trial)
    && |r.verdicts| == |TargetsOf(c)| && |r.artifacts| <= 32
    && forall t | AsksFor(c, t) :: PassedOnce(r, t) && ProducedOnce(r, t)
  }

  /** A successful case of this trial with a documented, linked and passed review of everything the plan asks for. */
  ghost predicate Documented(c: Plan.Case, actual: CaseResult, trial: Trial) {
    var checks := SemanticChecks(actual.expectations);
    && actual.success && actual.current
    && |actual.runIds| == c.runs && Distinct(actual.runIds) && |actual.reviews| == c.runs
    && |checks| == |TargetsOf(c)| * c.runs && (forall i | 0 <= i < |checks| :: checks[i].passed)
    && forall k | 0 <= k < c.runs ::
         && Documents(actual.reviews[k], c, actual.runIds[k], k + 1, trial)
         && forall t | AsksFor(c, t) :: LinkedOnceTo(checks, t, k + 1, actual.reviews[k].request)
  }

  lemma {:induction false} TargetsMeaning(expectations: seq<Plan.Expectation>, t: Target)
    ensures t in SemanticTargets(expectations)
       <==> exists i :: 0 <= i < |expectations| && expectations[i] == Plan.SemanticReview(t.path, t.taskId)
  {
    if expectations != [] {
      TargetsMeaning(expectations[1..], t);
      assert forall i | 0 < i < |expectations| :: expectations[i] == expectations[1..][i - 1];
    }
  }

  /** A filter leaves one element exactly if one position matches. */
  lemma FilteredOnce<T>(s: seq<T>, p: T -> bool, good: T -> bool)
    ensures |Matching(s, p)| == 1 && good(Matching(s, p)[0]) <==>
              exists k :: 0 <= k < |s| && p(s[k]) && good(s[k]) && forall j | 0 <= j < |s| && j != k :: !p(s[j])
  {
    if |Matching(s, p)| == 1 {
      var k := OneMatch(s, p);
    }
    if k :| 0 <= k < |s| && p(s[k]) && good(s[k]) && forall j | 0 <= j < |s| && j != k :: !p(s[j]) {
      UniqueMatch(s, p, k);
    }
  }

  lemma QuotesMeaning(v: Verdict, path: string)
    ensures VerdictAcceptable(v, path) <==> v.opinion == Pass && !Blank(v.reason) && Quotes(v.evidence, path)
  {
    if VerdictAcceptable(v, path) {
      var i :| 0 <= i < |v.evidence| && QuoteAcceptable(v.evidence[i], path);
    }
    if Quotes(v.evidence, path) {
      var q :| 0 <= q < |v.evidence| && v.evidence[q].path == path && !Blank(v.evidence[q].quote)
        && v.evidence[q].digest == Sha256(v.evidence[q].quote) && 1 <= v.evidence[q].length <= 512;
      assert QuoteAcceptable(v.evidence[q], path);
    }
  }

  lemma VerdictMeaning(r: Receipt, t: Target)
    ensures |Matching(r.verdicts, ForTarget(t))| == 1 && VerdictAcceptable(Matching(r.verdicts, ForTarget(t))[0], t.path)
       <==> PassedOnce(r, t)
  {
    FilteredOnce(r.verdicts, ForTarget(t), (v: Verdict) => VerdictAcceptable(v, t.path));
    forall v: Verdict {
      QuotesMeaning(v, t.path);
    }
  }

  lemma ArtifactMeaning(r: Receipt, t: Target)
    ensures var found := Matching(r.artifacts, AtPath(t.path));
            |found| == 1 && found[0].role == Produced && 1 <= found[0].bytes <= FILE_BYTES <==> ProducedOnce(r, t)
  {
    FilteredOnce(r.artifacts, AtPath(t.path), (a: Recorded) => a.role == Produced && 1 <= a.bytes <= FILE_BYTES);
  }

  lemma LinkMeaning(checks: seq<SemanticCheck>, t: Target, runNumber: nat, request: Digest<string>)
    ensures |Matching(checks, LinkedTo(t, runNumber, request))| == 1 <==> LinkedOnceTo(checks, t, runNumber, request)
  {
    FilteredOnce(checks, LinkedTo(t, runNumber, request), (check: SemanticCheck) => true);
  }

  lemma TargetMeaning(r: Receipt, checks: seq<SemanticCheck>, t: Target, runNumber: nat)
    ensures TargetAcceptable(r, checks, t, runNumber) <==>
              PassedOnce(r, t) && ProducedOnce(r, t) && LinkedOnceTo(checks, t, runNumber, r.request)
  {
    VerdictMeaning(r, t);
    ArtifactMeaning(r, t);
    LinkMeaning(checks, t, runNumber, r.request);
  }

  lemma HeaderMeaning(r: Receipt, c: Plan.Case, runId: string, runNumber: nat, trial: Trial)
    ensures HeaderAcceptable(r, c, runId, runNumber, trial) <==>
              OfThisRun(r, c, runId, runNumber, trial) && |r.verdicts| == |TargetsOf(c)| && |r.artifacts| <= 32
  {
    assert r.identity.trial == trial.identity <==>
           && r.identity.trial.stageId == trial.identity.stageId && r.identity.trial.trialId == trial.identity.trialId
           && r.identity.trial.yamlHash == trial.identity.yamlHash && r.identity.trial.planHash == trial.identity.planHash;
  }

  lemma EveryTarget(r: Receipt, c: Plan.Case, checks: seq<SemanticCheck>, runNumber: nat)
    ensures (forall i | 0 <= i < |TargetsOf(c)| :: TargetAcceptable(r, checks, TargetsOf(c)[i], runNumber))
       <==> forall t | AsksFor(c, t) :: TargetAcceptable(r, checks, t, runNumber)
  {
    var targets := TargetsOf(c);
    forall t
      ensures AsksFor(c, t) <==> t in targets
    {
      TargetsMeaning(c.expectations, t);
    }
    if forall t | AsksFor(c, t) :: TargetAcceptable(r, checks, t, runNumber) {
      forall i | 0 <= i < |targets|
        ensures TargetAcceptable(r, checks, targets[i], runNumber)
      {
        assert AsksFor(c, targets[i]);
      }
    }
  }

  lemma RunMeaning(c: Plan.Case, actual: CaseResult, checks: seq<SemanticCheck>, k: nat, trial: Trial)
    requires k < |actual.runIds| && k < |actual.reviews|
    ensures RunAcceptable(c, actual, checks, k, trial) <==>
              && Documents(actual.reviews[k], c, actual.runIds[k], k + 1, trial)
              && forall t | AsksFor(c, t) :: LinkedOnceTo(checks, t, k + 1, actual.reviews[k].request)
  {
    var r := actual.reviews[k];
    HeaderMeaning(r, c, actual.runIds[k], k + 1, trial);
    EveryTarget(r, c, checks, k + 1);
    forall t {
      TargetMeaning(r, checks, t, k + 1);
    }
  }

  /** The validator accepts exactly the documented cases. */
  lemma AcceptanceMeaning(c: Plan.Case, actual: CaseResult, trial: Trial)
    ensures CaseAcceptable(c, actual, trial) <==> Documented(c, actual, trial)
  {
    var checks := SemanticChecks(actual.expectations);
    if |actual.runIds| == c.runs == |actual.reviews| {
      forall k | 0 <= k < c.runs
        ensures RunAcceptable(c, actual, checks, k, trial) <==>
                  && Documents(actual.reviews[k], c, actual.runIds[k], k + 1, trial)
                  && forall t | AsksFor(c, t) :: LinkedOnceTo(checks, t, k + 1, actual.reviews[k].request)
      {
        RunMeaning(c, actual, checks, k, trial);
      }
    }
  }

  /** A case with planned reviews has one result, and that is documented. */
  ghost predicate ResultDocumented(c: Plan.Case, results: seq<CaseResult>, trial: Trial) {
    (exists t :: AsksFor(c, t)) ==>
      exists k :: 0 <= k < |results| && results[k].id == c.id && Documented(c, results[k], trial)
        && forall j | 0 <= j < |results| && j != k :: results[j].id != c.id
  }

  /** Unless no case has planned reviews, there is a trial with at most 32 results, documented where reviews are planned. */
  ghost predicate TrialDocumented(cases: seq<Plan.Case>, results: seq<CaseResult>, trial: Option<Trial>) {
    (exists i, t :: 0 <= i < |cases| && AsksFor(cases[i], t)) ==>
      && trial.Some? && |results| <= 32
      && forall i | 0 <= i < |cases| :: ResultDocumented(cases[i], results, trial.value)
  }

  lemma PlannedTargets(c: Plan.Case)
    ensures TargetsOf(c) != [] <==> exists t :: AsksFor(c, t)
  {
    if TargetsOf(c) != [] {
      TargetsMeaning(c.expectations, TargetsOf(c)[0]);
      assert AsksFor(c, TargetsOf(c)[0]);
    }
    if t :| AsksFor(c, t) {
      TargetsMeaning(c.expectations, t);
    }
  }

  lemma ResultMeaning(c: Plan.Case, results: seq<CaseResult>, trial: Trial)
    ensures PlannedAcceptable(c, results, trial) <==> ResultDocumented(c, results, trial)
  {
    PlannedTargets(c);
    FilteredOnce(results, WithId(c.id), (r: CaseResult) => Documented(c, r, trial));
    if |Matching(results, WithId(c.id))| == 1 {
      AcceptanceMeaning(c, Matching(results, WithId(c.id))[0], trial);
    }
  }

  lemma TrialMeaning(cases: seq<Plan.Case>, results: seq<CaseResult>, trial: Option<Trial>)
    ensures ReceiptsValid(cases, results, trial) <==> TrialDocumented(cases, results, trial)
  {
    forall i | 0 <= i < |cases|
      ensures TargetsOf(cases[i]) != [] <==> exists t :: AsksFor(cases[i], t)
      ensures trial.Some? ==>
                (PlannedAcceptable(cases[i], results, trial.value) <==> ResultDocumented(cases[i], results, trial.value))
    {
      PlannedTargets(cases[i]);
      if trial.Some? {
        ResultMeaning(cases[i], results, trial.value);
      }
    }
  }

  // ----- Assembling a case from its reviews -----

  function ChecksOfRun(o: Outcome, runNumber: nat): (checks: seq<SemanticCheck>)
    ensures |checks| == |o.checks|
    ensures forall i | 0 <= i < |checks| ::
              checks[i] == SemanticCheck(o.checks[i].target, runNumber,
                                         if o.receipt.Some? then Some(o.receipt.value.request) else None, o.checks[i].passed)
  {
    seq(|o.checks|, i requires 0 <= i < |o.checks| =>
      SemanticCheck(o.checks[i].target, runNumber,
                    if o.receipt.Some? then Some(o.receipt.value.request) else None, o.checks[i].passed))
  }

  /** Runs are numbered from one. */
  function ChecksOf(outcomes: seq<Outcome>): seq<SemanticCheck> {
    if outcomes == [] then []
    else ChecksOf(outcomes[..|outcomes| - 1]) + ChecksOfRun(outcomes[|outcomes| - 1], |outcomes|)
  }

  function ReceiptsOf(outcomes: seq<Outcome>): seq<Receipt> {
    if outcomes == [] then []
    else
      var last := outcomes[|outcomes| - 1];
      ReceiptsOf(outcomes[..|outcomes| - 1]) + if last.receipt.Some? then [last.receipt.value] else []
  }

  /** What the loop over the runs collects. */
  method CollectReviews(outcomes: seq<Outcome>) returns (reviews: seq<Receipt>, checks: seq<SemanticCheck>)
    ensures reviews == ReceiptsOf(outcomes) && checks == ChecksOf(outcomes)
  {
    reviews, checks := [], [];
    var runNumber := 1;
    while runNumber <= |outcomes|
      invariant 1 <= runNumber <= |outcomes| + 1
      invariant reviews == ReceiptsOf(outcomes[..runNumber - 1]) && checks == ChecksOf(outcomes[..runNumber - 1])
    {
      var o := outcomes[runNumber - 1];
      assert outcomes[..runNumber][..runNumber - 1] == outcomes[..runNumber - 1];
      if o.receipt.Some? {
        reviews := reviews + [o.receipt.value];
      }
      checks := checks + ChecksOfRun(o, runNumber);
      runNumber := runNumber + 1;
    }
    assert outcomes[..|outcomes|] == outcomes;
  }

  function AsExpectations(checks: seq<SemanticCheck>): seq<CaseExpectation> {
    if checks == [] then [] else [Semantic(checks[0])] + AsExpectations(checks[1..])
  }

  /** The case result: earlier mismatches, the semantic rows, then the other results. */
  function Assemble(c: Plan.Case, success: bool, runIds: seq<string>, outcomes: seq<Outcome>,
                    earlier: seq<CaseExpectation>, others: seq<CaseExpectation>): CaseResult {
    CaseResult(c.id, success, true, runIds, ReceiptsOf(outcomes), earlier + AsExpectations(ChecksOf(outcomes)) + others)
  }

  lemma {:induction false} SemanticAppend(a: seq<CaseExpectation>, b: seq<CaseExpectation>)
    ensures SemanticChecks(a + b) == SemanticChecks(a) + SemanticChecks(b)
  {
    if a == [] {
      assert a + b == b;
    } else {
      SemanticAppend(a[1..], b);
      var head := if a[0].Semantic? then [a[0].check] else [];
      assert (a + b)[0] == a[0] && (a + b)[1..] == a[1..] + b;
      assert head + (SemanticChecks(a[1..]) + SemanticChecks(b)) == (head + SemanticChecks(a[1..])) + SemanticChecks(b);
    }
  }

  lemma {:induction false} SemanticRoundTrip(checks: seq<SemanticCheck>)
    ensures SemanticChecks(AsExpectations(checks)) == checks
  {
    if checks != [] {
      SemanticRoundTrip(checks[1..]);
      assert AsExpectations(checks)[1..] == AsExpectations(checks[1..]);
    }
  }

  lemma {:induction false} NoneSemantic(expectations: seq<CaseExpectation>)
    requires forall i | 0 <= i < |expectations| :: expectations[i].Other?
    ensures SemanticChecks(expectations) == []
  {
    if expectations != [] {
      NoneSemantic(expectations[1..]);
    }
  }

  lemma AssembledChecks(c: Plan.Case, success: bool, runIds: seq<string>, outcomes: seq<Outcome>,
                        earlier: seq<CaseExpectation>, others: seq<CaseExpectation>)
    requires forall i | 0 <= i < |earlier| :: earlier[i].Other?
    requires forall i | 0 <= i < |others| :: others[i].Other?
    ensures SemanticChecks(Assemble(c, success, runIds, outcomes, earlier, others).expectations) == ChecksOf(outcomes)
  {
    var semantic := AsExpectations(ChecksOf(outcomes));
    SemanticRoundTrip(ChecksOf(outcomes));
    NoneSemantic(earlier);
    NoneSemantic(others);
    SemanticAppend(earlier, semantic);
    SemanticAppend(earlier + semantic, others);
  }

  // ----- Every repeat reviewed: the assembled case is accepted -----

  /** Run n of a case: reviewed, successful, and identified as this run of this case. */
  ghost predicate GoodRun(c: Plan.Case, trial: Trial, runId: string, runNumber: nat, request: Request, world: World, o: Outcome) {
    && Reviewed(request, world) && ReviewDecided(request, world, o) && o.success
    && request.targets == TargetsOf(c)
    && request.identity == Identity(trial.identity, trial.intentDigest, c.id, runId, runNumber)
    && ConfigurationDigest(request.model.value) == Some(trial.configuration)
  }

  /** The verdicts of a passed review hold one acceptable row for every target. */
  lemma GoodVerdict(request: Request, world: World, r: Receipt, t: Target)
    requires Reviewed(request, world) && ReceiptFor(request, world, r) && r.grade == Passed && t in request.targets
    ensures |Matching(r.verdicts, ForTarget(t))| == 1
    ensures VerdictAcceptable(Matching(r.verdicts, ForTarget(t))[0], t.path)
  {
    var artifacts, reviews := ArtifactsOf(request, world.before).value, world.reply.reviews.value;
    RequestTargetsClean(request, world.before);
    var i := AnsweredOnce(request.targets, artifacts, reviews, t);
    forall j | 0 <= j < |r.verdicts| && ForTarget(t)(r.verdicts[j])
      ensures j == i
    {
      assert IsVerdict(artifacts, reviews[j], r.verdicts[j]);
    }
    assert IsVerdict(artifacts, reviews[i], r.verdicts[i]);
    UniqueMatch(r.verdicts, ForTarget(t), i);
    GoodRow(artifacts, reviews[i], r.verdicts[i]);
  }

  lemma GoodRow(artifacts: seq<Artifact>, review: Review, v: Verdict)
    requires ReviewFine(artifacts, review) && IsVerdict(artifacts, review, v) && review.opinion.Pass?
    ensures VerdictAcceptable(v, review.path)
  {
    TrimBlank(review.reason);
    var i :| 0 <= i < |review.evidence| && review.evidence[i].path == review.path;
    assert Literal(artifacts, review.evidence[i]);
    assert v.evidence[i] == EvidenceOf(artifacts, review.evidence[i]);
    NonblankHasLength(review.evidence[i].text);
    assert QuoteAcceptable(v.evidence[i], review.path);
  }

  lemma NonblankHasLength(s: string)
    requires !Blank(s)
    ensures Utf16Length(s) > 0 && Utf8Length(s) > 0
  {
    assert s != [];
  }

  lemma RecordedOnce(artifacts: seq<Artifact>, path: string, k: nat)
    requires k < |artifacts| && artifacts[k].path == path
    requires forall i | 0 <= i < |artifacts| && artifacts[i].path == path :: i == k
    ensures Matching(Record(artifacts), AtPath(path)) == [Record(artifacts)[k]]
  {
    UniqueMatch(Record(artifacts), AtPath(path), k);
  }

  /** A passed review records every target's artifact once, as produced and not empty. */
  lemma GoodArtifact(request: Request, world: World, r: Receipt, t: Target)
    requires Reviewed(request, world) && ReceiptFor(request, world, r) && t in request.targets
    ensures var found := Matching(r.artifacts, AtPath(t.path));
            |found| == 1 && found[0].role == Produced && 1 <= found[0].bytes <= FILE_BYTES
  {
    var artifacts := ArtifactsOf(request, world.before).value;
    var k := TargetArtifact(request, world.before, t);
    RecordedOnce(artifacts, t.path, k);
    NonblankHasLength(artifacts[k].content);
    assert r.artifacts == Record(artifacts);
  }

  /** The runs' checks name the targets in order, run by run. */
  ghost predicate ChecksTargets(o: Outcome, targets: seq<Target>) {
    && |o.checks| == |targets| && o.receipt.Some?
    && forall i | 0 <= i < |targets| :: o.checks[i].target == targets[i]
  }

  lemma LinkedInRun(o: Outcome, targets: seq<Target>, i: nat, number: nat, runNumber: nat, request: Digest<string>)
    requires ChecksTargets(o, targets) && Distinct(targets) && i < |targets|
    requires number == runNumber ==> o.receipt.value.request == request
    ensures |Matching(ChecksOfRun(o, number), LinkedTo(targets[i], runNumber, request))| == if number == runNumber then 1 else 0
  {
    var checks, link := ChecksOfRun(o, number), LinkedTo(targets[i], runNumber, request);
    if number == runNumber {
      UniqueMatch(checks, link, i);
    } else {
      NoMatch(checks, link);
    }
  }

  lemma LinkedAppend(outcomes: seq<Outcome>, n: nat, link: SemanticCheck -> bool)
    requires 0 < n <= |outcomes|
    ensures Matching(ChecksOf(outcomes[..n]), link)
         == Matching(ChecksOf(outcomes[..n - 1]), link) + Matching(ChecksOfRun(outcomes[n - 1], n), link)
  {
    assert outcomes[..n][..n - 1] == outcomes[..n - 1];
    MatchingAppend(ChecksOf(outcomes[..n - 1]), ChecksOfRun(outcomes[n - 1], n), link);
  }

  ghost predicate AllRunsCheck(outcomes: seq<Outcome>, targets: seq<Target>) {
    forall k | 0 <= k < |outcomes| :: ChecksTargets(outcomes[k], targets)
  }

  function MatchesInRun(o: Outcome, number: nat, link: SemanticCheck -> bool): nat {
    |Matching(ChecksOfRun(o, number), link)|
  }

  /** If only one run has a matching check, and one only, so have all runs together. */
  lemma {:induction false} MatchedOnce(outcomes: seq<Outcome>, n: nat, link: SemanticCheck -> bool, run: nat)
    requires n <= |outcomes|
    requires forall k | 0 <= k < |outcomes| :: MatchesInRun(outcomes[k], k + 1, link) == if k == run then 1 else 0
    ensures |Matching(ChecksOf(outcomes[..n]), link)| == if run < n then 1 else 0
  {
    if n > 0 {
      MatchedOnce(outcomes, n - 1, link, run);
      LinkedAppend(outcomes, n, link);
      assert MatchesInRun(outcomes[n - 1], n - 1 + 1, link) == if n - 1 == run then 1 else 0;
    }
  }

  /** Of all checks of all runs, one is linked to a given target and run. */
  lemma LinkedOnce(outcomes: seq<Outcome>, targets: seq<Target>, i: nat, run: nat, request: Digest<string>)
    requires run < |outcomes| && Distinct(targets) && i < |targets|
    requires AllRunsCheck(outcomes, targets)
    requires ChecksTargets(outcomes[run], targets) && outcomes[run].receipt.value.request == request
    ensures |Matching(ChecksOf(outcomes), LinkedTo(targets[i], run + 1, request))| == 1
  {
    var link := LinkedTo(targets[i], run + 1, request);
    forall k | 0 <= k < |outcomes|
      ensures MatchesInRun(outcomes[k], k + 1, link) == if k == run then 1 else 0
    {
      assert ChecksTargets(outcomes[k], targets);
      LinkedInRun(outcomes[k], targets, i, k + 1, run + 1, request);
    }
    MatchedOnce(outcomes, |outcomes|, link, run);
    assert outcomes[..|outcomes|] == outcomes;
  }

  lemma {:induction false} AllReceipts(outcomes: seq<Outcome>)
    requires forall k | 0 <= k < |outcomes| :: outcomes[k].receipt.Some?
    ensures |ReceiptsOf(outcomes)| == |outcomes|
    ensures forall k | 0 <= k < |outcomes| :: ReceiptsOf(outcomes)[k] == outcomes[k].receipt.value
  {
    if outcomes != [] {
      AllReceipts(outcomes[..|outcomes| - 1]);
    }
  }

  ghost predicate PassesRun(o: Outcome, n: nat) {
    |o.checks| == n && forall i | 0 <= i < n :: o.checks[i].passed
  }

  lemma {:induction false} AllChecksPass(outcomes: seq<Outcome>, n: nat)
    requires forall k | 0 <= k < |outcomes| :: PassesRun(outcomes[k], n)
    ensures |ChecksOf(outcomes)| == n * |outcomes|
    ensures forall i | 0 <= i < |ChecksOf(outcomes)| :: ChecksOf(outcomes)[i].passed
  {
    if outcomes != [] {
      var last := |outcomes| - 1;
      AllChecksPass(outcomes[..last], n);
      assert PassesRun(outcomes[last], n);
      assert n * |outcomes| == n * last + n;
    }
  }

  lemma GoodOutcome(c: Plan.Case, trial: Trial, runId: string, runNumber: nat, request: Request, world: World, o: Outcome)
    requires GoodRun(c, trial, runId, runNumber, request, world, o)
    ensures ChecksTargets(o, TargetsOf(c)) && Distinct(TargetsOf(c)) && TargetsOf(c) != []
    ensures PassesRun(o, |TargetsOf(c)|)
    ensures HeaderAcceptable(o.receipt.value, c, runId, runNumber, trial)
    ensures ReceiptFor(request, world, o.receipt.value) && o.receipt.value.grade == Passed
  {
    var artifacts, reviews := ArtifactsOf(request, world.before).value, world.reply.reviews.value;
    RequestTargetsClean(request, world.before);
    AllTargetsPass(request.targets, artifacts, reviews);
  }

  /** One run's part of the validator's check. */
  lemma GoodRunAcceptable(c: Plan.Case, trial: Trial, actual: CaseResult, outcomes: seq<Outcome>, index: nat,
                          request: Request, world: World)
    requires |outcomes| == |actual.runIds| == |actual.reviews| && index < |outcomes|
    requires AllRunsCheck(outcomes, TargetsOf(c))
    requires GoodRun(c, trial, actual.runIds[index], index + 1, request, world, outcomes[index])
    requires Some(actual.reviews[index]) == outcomes[index].receipt
    ensures RunAcceptable(c, actual, ChecksOf(outcomes), index, trial)
  {
    var o, targets := outcomes[index], TargetsOf(c);
    GoodOutcome(c, trial, actual.runIds[index], index + 1, request, world, o);
    forall i | 0 <= i < |targets|
      ensures TargetAcceptable(actual.reviews[index], ChecksOf(outcomes), targets[i], index + 1)
    {
      GoodVerdict(request, world, o.receipt.value, targets[i]);
      GoodArtifact(request, world, o.receipt.value, targets[i]);
      LinkedOnce(outcomes, targets, i, index, o.receipt.value.request);
    }
  }

  ghost predicate AllRunsGood(c: Plan.Case, trial: Trial, runIds: seq<string>, requests: seq<Request>, worlds: seq<World>,
                              outcomes: seq<Outcome>) {
    && |runIds| == |requests| == |worlds| == |outcomes| == c.runs
    && forall k | 0 <= k < c.runs :: GoodRun(c, trial, runIds[k], k + 1, requests[k], worlds[k], outcomes[k])
  }

  lemma AllRunsCollected(c: Plan.Case, trial: Trial, runIds: seq<string>, requests: seq<Request>, worlds: seq<World>,
                         outcomes: seq<Outcome>)
    requires AllRunsGood(c, trial, runIds, requests, worlds, outcomes)
    ensures AllRunsCheck(outcomes, TargetsOf(c))
    ensures |ReceiptsOf(outcomes)| == c.runs
    ensures forall k | 0 <= k < c.runs :: Some(ReceiptsOf(outcomes)[k]) == outcomes[k].receipt
    ensures |ChecksOf(outcomes)| == |TargetsOf(c)| * c.runs
    ensures forall i | 0 <= i < |ChecksOf(outcomes)| :: ChecksOf(outcomes)[i].passed
  {
    forall k | 0 <= k < c.runs
      ensures ChecksTargets(outcomes[k], TargetsOf(c)) && PassesRun(outcomes[k], |TargetsOf(c)|)
    {
      GoodOutcome(c, trial, runIds[k], k + 1, requests[k], worlds[k], outcomes[k]);
    }
    AllReceipts(outcomes);
    AllChecksPass(outcomes, |TargetsOf(c)|);
  }

  /**
   * Producer and validator agree: if every repeat of a case was successfully reviewed, as the run it is and under
   * distinct run ids, the case assembled from the reviews is accepted.
   */
  lemma ReviewedCaseAccepted(c: Plan.Case, trial: Trial, runIds: seq<string>, requests: seq<Request>, worlds: seq<World>,
                             outcomes: seq<Outcome>, earlier: seq<CaseExpectation>, others: seq<CaseExpectation>)
    requires AllRunsGood(c, trial, runIds, requests, worlds, outcomes) && Distinct(runIds)
    requires forall i | 0 <= i < |earlier| :: earlier[i].Other?
    requires forall i | 0 <= i < |others| :: others[i].Other?
    ensures CaseAcceptable(c, Assemble(c, true, runIds, outcomes, earlier, others), trial)
  {
    var actual := Assemble(c, true, runIds, outcomes, earlier, others);
    AssembledChecks(c, true, runIds, outcomes, earlier, others);
    AllRunsCollected(c, trial, runIds, requests, worlds, outcomes);
    forall index | 0 <= index < c.runs
      ensures RunAcceptable(c, actual, SemanticChecks(actual.expectations), index, trial)
    {
      GoodRunAcceptable(c, trial, actual, outcomes, index, requests[index], worlds[index]);
    }
  }

  // ----- When an assembled case is accepted -----

  /** A run's checks name the targets in order. */
  ghost predicate NamesTargets(o: Outcome, targets: seq<Target>) {
    |o.checks| == |targets| && forall i | 0 <= i < |targets| :: o.checks[i].target == targets[i]
  }

  ghost predicate AllPassed(checks: seq<Check>) {
    forall i | 0 <= i < |checks| :: checks[i].passed
  }

  /** The run left a receipt that documents it, and all its targets passed. */
  ghost predicate DocumentedRun(o: Outcome, c: Plan.Case, runId: string, runNumber: nat, trial: Trial) {
    && o.receipt.Some? && Documents(o.receipt.value, c, runId, runNumber, trial)
    && AllPassed(o.checks)
  }

  lemma {:induction false} CountReceipts(outcomes: seq<Outcome>)
    ensures |ReceiptsOf(outcomes)| <= |outcomes|
    ensures |ReceiptsOf(outcomes)| == |outcomes| <==> forall k | 0 <= k < |outcomes| :: outcomes[k].receipt.Some?
  {
    if outcomes != [] {
      var last := |outcomes| - 1;
      CountReceipts(outcomes[..last]);
      assert forall k | 0 <= k < last :: outcomes[..last][k] == outcomes[k];
    }
  }

  ghost predicate RowsPassed(checks: seq<SemanticCheck>) {
    forall i | 0 <= i < |checks| :: checks[i].passed
  }

  lemma PassedAppend(a: seq<SemanticCheck>, b: seq<SemanticCheck>)
    ensures RowsPassed(a + b) <==> RowsPassed(a) && RowsPassed(b)
  {
    assert forall i | 0 <= i < |a| :: (a + b)[i] == a[i];
    assert forall i | 0 <= i < |b| :: (a + b)[|a| + i] == b[i];
  }

  lemma PassedOfRun(o: Outcome, runNumber: nat)
    ensures RowsPassed(ChecksOfRun(o, runNumber)) <==> AllPassed(o.checks)
  {
    var rows := ChecksOfRun(o, runNumber);
    assert forall i | 0 <= i < |rows| :: rows[i].passed == o.checks[i].passed;
  }

  lemma {:induction false} CountChecks(outcomes: seq<Outcome>, n: nat)
    requires forall k | 0 <= k < |outcomes| :: |outcomes[k].checks| == n
    ensures |ChecksOf(outcomes)| == n * |outcomes|
  {
    if outcomes != [] {
      var last := |outcomes| - 1;
      CountChecks(outcomes[..last], n);
      assert n * |outcomes| == n * last + n;
    }
  }

  lemma {:induction false} ChecksPassed(outcomes: seq<Outcome>)
    ensures RowsPassed(ChecksOf(outcomes)) <==> forall k | 0 <= k < |outcomes| :: AllPassed(outcomes[k].checks)
  {
    if outcomes != [] {
      var last := |outcomes| - 1;
      var rest := outcomes[..last];
      ChecksPassed(rest);
      PassedAppend(ChecksOf(rest), ChecksOfRun(outcomes[last], |outcomes|));
      PassedOfRun(outcomes[last], |outcomes|);
      assert forall k | 0 <= k < last :: rest[k] == outcomes[k];
    }
  }

  /** The rows of an assembled case are linked to the receipts it was assembled with. */
  lemma AssembledLinks(c: Plan.Case, outcomes: seq<Outcome>, k: nat, request: Digest<string>, t: Target)
    requires Distinct(TargetsOf(c)) && AllRunsCheck(outcomes, TargetsOf(c)) && k < |outcomes| && t in TargetsOf(c)
    requires ChecksTargets(outcomes[k], TargetsOf(c)) && outcomes[k].receipt.value.request == request
    ensures LinkedOnceTo(ChecksOf(outcomes), t, k + 1, request)
  {
    var i :| 0 <= i < |TargetsOf(c)| && TargetsOf(c)[i] == t;
    LinkedOnce(outcomes, TargetsOf(c), i, k, request);
    LinkMeaning(ChecksOf(outcomes), t, k + 1, request);
  }

  /** With a receipt from every run, what the validator compares is what the runs left. */
  lemma AssembledDocumented(c: Plan.Case, trial: Trial, actual: CaseResult, outcomes: seq<Outcome>)
    requires |actual.runIds| == |outcomes| == c.runs && Distinct(TargetsOf(c)) && AllRunsCheck(outcomes, TargetsOf(c))
    requires actual.current && actual.reviews == ReceiptsOf(outcomes) && |actual.reviews| == c.runs
    requires SemanticChecks(actual.expectations) == ChecksOf(outcomes)
    requires forall k | 0 <= k < c.runs :: Some(actual.reviews[k]) == outcomes[k].receipt
    requires |ChecksOf(outcomes)| == |TargetsOf(c)| * c.runs
    ensures Documented(c, actual, trial) <==>
              && actual.success && Distinct(actual.runIds) && RowsPassed(ChecksOf(outcomes))
              && forall k | 0 <= k < c.runs :: Documents(actual.reviews[k], c, actual.runIds[k], k + 1, trial)
  {
    forall k, t | 0 <= k < c.runs && AsksFor(c, t)
      ensures LinkedOnceTo(ChecksOf(outcomes), t, k + 1, actual.reviews[k].request)
    {
      TargetsMeaning(c.expectations, t);
      assert ChecksTargets(outcomes[k], TargetsOf(c));
      AssembledLinks(c, outcomes, k, actual.reviews[k].request, t);
    }
  }

  lemma AssembledWithReceipts(c: Plan.Case, trial: Trial, success: bool, runIds: seq<string>, outcomes: seq<Outcome>,
                              earlier: seq<CaseExpectation>, others: seq<CaseExpectation>)
    requires |runIds| == |outcomes| == c.runs && Distinct(TargetsOf(c))
    requires AllRunsCheck(outcomes, TargetsOf(c))
    requires forall i | 0 <= i < |earlier| :: earlier[i].Other?
    requires forall i | 0 <= i < |others| :: others[i].Other?
    ensures CaseAcceptable(c, Assemble(c, success, runIds, outcomes, earlier, others), trial) <==>
              && success && Distinct(runIds)
              && forall k | 0 <= k < c.runs :: DocumentedRun(outcomes[k], c, runIds[k], k + 1, trial)
  {
    var actual := Assemble(c, success, runIds, outcomes, earlier, others);
    AcceptanceMeaning(c, actual, trial);
    AssembledChecks(c, success, runIds, outcomes, earlier, others);
    AllReceipts(outcomes);
    CountChecks(outcomes, |TargetsOf(c)|);
    ChecksPassed(outcomes);
    AssembledDocumented(c, trial, actual, outcomes);
  }

  /**
   * Producer and validator agree: the case assembled from its repeats, whose checks name the planned targets, is
   * accepted exactly if it succeeded, the run ids are distinct, and each run left a receipt of just this run that
   * documents a passed review of every planned target.
   */
  lemma AssembledAccepted(c: Plan.Case, trial: Trial, success: bool, runIds: seq<string>, outcomes: seq<Outcome>,
                          earlier: seq<CaseExpectation>, others: seq<CaseExpectation>)
    requires |runIds| == |outcomes| == c.runs && Distinct(TargetsOf(c))
    requires forall k | 0 <= k < c.runs :: NamesTargets(outcomes[k], TargetsOf(c))
    requires forall i | 0 <= i < |earlier| :: earlier[i].Other?
    requires forall i | 0 <= i < |others| :: others[i].Other?
    ensures CaseAcceptable(c, Assemble(c, success, runIds, outcomes, earlier, others), trial) <==>
              && success && Distinct(runIds)
              && forall k | 0 <= k < c.runs :: DocumentedRun(outcomes[k], c, runIds[k], k + 1, trial)
  {
    var actual := Assemble(c, success, runIds, outcomes, earlier, others);
    CountReceipts(outcomes);
    if forall k | 0 <= k < c.runs :: outcomes[k].receipt.Some? {
      AssembledWithReceipts(c, trial, success, runIds, outcomes, earlier, others);
    } else {
      assert |actual.reviews| != c.runs;
    }
  }

  /** An accepted case holds, for its k-th run, a receipt of that run with a quoted, produced pass of every planned target. */
  lemma AcceptedReceipt(c: Plan.Case, actual: CaseResult, trial: Trial, k: nat)
    requires CaseAcceptable(c, actual, trial) && k < c.runs
    ensures k < |actual.reviews| && k < |actual.runIds|
    ensures Documents(actual.reviews[k], c, actual.runIds[k], k + 1, trial)
  {
    AcceptanceMeaning(c, actual, trial);
  }

  // ----- Acceptance: the semantic rows are exactly the (target, run) pairs -----

  /** The check with this index belongs to this target and run. */
  ghost predicate Belongs(c: Plan.Case, actual: CaseResult, index: nat, target: nat, run: nat) {
    && target < |TargetsOf(c)| && run < |actual.reviews|
    && index < |SemanticChecks(actual.expectations)|
    && LinkedTo(TargetsOf(c)[target], run + 1, actual.reviews[run].request)(SemanticChecks(actual.expectations)[index])
  }

  lemma PairHasCheck(c: Plan.Case, actual: CaseResult, trial: Trial, target: nat, run: nat) returns (index: nat)
    requires CaseAcceptable(c, actual, trial) && target < |TargetsOf(c)| && run < c.runs
    ensures Belongs(c, actual, index, target, run)
    ensures forall other | Belongs(c, actual, other, target, run) :: other == index
  {
    var checks := SemanticChecks(actual.expectations);
    assert RunAcceptable(c, actual, checks, run, trial);
    assert TargetAcceptable(actual.reviews[run], checks, TargetsOf(c)[target], run + 1);
    index := OneMatch(checks, LinkedTo(TargetsOf(c)[target], run + 1, actual.reviews[run].request));
  }

  datatype Pair = Pair(target: nat, run: nat)

  function PairsOfRun(targets: nat, run: nat): (pairs: seq<Pair>)
    ensures |pairs| == targets && forall i | 0 <= i < targets :: pairs[i] == Pair(i, run)
  {
    seq(targets, i requires 0 <= i < targets => Pair(i, run))
  }

  function Pairs(targets: nat, runs: nat): seq<Pair> {
    if runs == 0 then [] else Pairs(targets, runs - 1) + PairsOfRun(targets, runs - 1)
  }

  lemma {:induction false} PairsMeaning(targets: nat, runs: nat)
    ensures |Pairs(targets, runs)| == targets * runs
    ensures Distinct(Pairs(targets, runs))
    ensures forall i | 0 <= i < |Pairs(targets, runs)| ::
              Pairs(targets, runs)[i].target < targets && Pairs(targets, runs)[i].run < runs
  {
    if runs > 0 {
      PairsMeaning(targets, runs - 1);
      assert targets * runs == targets * (runs - 1) + targets;
    }
  }

  /** Distinct positions below n, n of them, are all positions below n. */
  lemma PositionsComplete(positions: seq<nat>, k: nat)
    requires Distinct(positions) && (forall i | 0 <= i < |positions| :: positions[i] < |positions|) && k < |positions|
    ensures k in positions
  {
    var indices := Indices(|positions|);
    var used, all := set x: nat | x in positions, set x: nat | x in indices;
    forall i | 0 <= i < |positions|
      ensures positions[i] in all
    {
      assert indices[positions[i]] == positions[i];
    }
    DistinctSetSize(positions);
    DistinctSetSize(indices);
    assert used <= all;
    SubsetOfSameSize(used, all);
    assert indices[k] in all;
  }

  /** The position of the check of every pair. */
  lemma PairPositions(c: Plan.Case, actual: CaseResult, trial: Trial, pairs: seq<Pair>) returns (positions: seq<nat>)
    requires CaseAcceptable(c, actual, trial)
    requires forall p | 0 <= p < |pairs| :: pairs[p].target < |TargetsOf(c)| && pairs[p].run < c.runs
    ensures |positions| == |pairs|
    ensures forall p | 0 <= p < |pairs| :: Belongs(c, actual, positions[p], pairs[p].target, pairs[p].run)
  {
    positions := [];
    for p := 0 to |pairs|
      invariant |positions| == p
      invariant forall q | 0 <= q < p :: Belongs(c, actual, positions[q], pairs[q].target, pairs[q].run)
    {
      var index := PairHasCheck(c, actual, trial, pairs[p].target, pairs[p].run);
      positions := positions + [index];
    }
  }

  /** A check belongs to one pair only. */
  lemma OnePair(c: Plan.Case, actual: CaseResult, index: nat, a: Pair, b: Pair)
    requires Distinct(TargetsOf(c))
    requires Belongs(c, actual, index, a.target, a.run) && Belongs(c, actual, index, b.target, b.run)
    ensures a == b
  {
    assert TargetsOf(c)[a.target] == TargetsOf(c)[b.target];
  }

  lemma PositionsDistinct(c: Plan.Case, actual: CaseResult, pairs: seq<Pair>, positions: seq<nat>)
    requires Distinct(TargetsOf(c)) && Distinct(pairs) && |positions| == |pairs|
    requires forall p | 0 <= p < |pairs| :: Belongs(c, actual, positions[p], pairs[p].target, pairs[p].run)
    ensures Distinct(positions)
  {
    forall i, j | 0 <= i < j < |positions|
      ensures positions[i] != positions[j]
    {
      if positions[i] == positions[j] {
        OnePair(c, actual, positions[i], pairs[i], pairs[j]);
      }
    }
  }

  /**
   * In an accepted case whose targets are distinct, every semantic row is the row of one target in one run; together
   * with PairHasCheck, the rows are exactly the pairs of a target and a run.
   */
  lemma EveryCheckIsAPair(c: Plan.Case, actual: CaseResult, trial: Trial, index: nat) returns (pair: Pair)
    requires CaseAcceptable(c, actual, trial) && Distinct(TargetsOf(c))
    requires index < |SemanticChecks(actual.expectations)|
    ensures Belongs(c, actual, index, pair.target, pair.run) && SemanticChecks(actual.expectations)[index].passed
    ensures forall other: Pair | Belongs(c, actual, index, other.target, other.run) :: other == pair
  {
    var pairs := Pairs(|TargetsOf(c)|, c.runs);
    PairsMeaning(|TargetsOf(c)|, c.runs);
    var positions := PairPositions(c, actual, trial, pairs);
    PositionsDistinct(c, actual, pairs, positions);
    PositionsComplete(positions, index);
    var p :| 0 <= p < |positions| && positions[p] == index;
    pair := pairs[p];
    forall other: Pair | Belongs(c, actual, index, other.target, other.run)
      ensures other == pair
    {
      OnePair(c, actual, index, other, pair);
    }
  }
}
