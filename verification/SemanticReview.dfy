/** Independent semantic review of produced artifacts: what one accepted model response must contain. */
module SemanticReview {
  import opened Common
  import opened JsonPointer
  import opened Ordering
  import Prerequisites

  // ----- Strings -----

  /** String length in UTF-16 code units. */
  function Utf16Length(s: string): nat {
    if s == [] then 0 else (if s[0] < '\U{10000}' then 1 else 2) + Utf16Length(s[1..])
  }

  function TrimStart(s: string): string {
    if s != [] && IsSpace(s[0]) then TrimStart(s[1..]) else s
  }

  function TrimEnd(s: string): string {
    if s != [] && IsSpace(s[|s| - 1]) then TrimEnd(s[..|s| - 1]) else s
  }

  function Trim(s: string): string {
    TrimEnd(TrimStart(s))
  }

  lemma {:induction false} TrimStartBlank(s: string)
    ensures Blank(TrimStart(s)) <==> Blank(s)
  {
    if s != [] && IsSpace(s[0]) {
      TrimStartBlank(s[1..]);
      assert forall i | 1 <= i < |s| :: s[i] == s[1..][i - 1];
    }
  }

  lemma {:induction false} TrimEndBlank(s: string)
    ensures Blank(TrimEnd(s)) <==> Blank(s)
  {
    if s != [] && IsSpace(s[|s| - 1]) {
      TrimEndBlank(s[..|s| - 1]);
    }
  }

  lemma TrimBlank(s: string)
    ensures Blank(Trim(s)) <==> Blank(s)
  {
    TrimStartBlank(s);
    TrimEndBlank(TrimStart(s));
  }

  /** The first occurrence of a text, searched from a position on. */
  function IndexFrom(text: string, part: string, at: nat): (r: Option<nat>)
    requires at <= |text|
    ensures r.Some? ==> at <= r.value && OccursAt(text, part, r.value)
    ensures r.Some? ==> forall k: nat | at <= k < r.value :: !OccursAt(text, part, k)
    ensures r.None? ==> forall k: nat | at <= k :: !OccursAt(text, part, k)
    decreases |text| - at
  {
    if OccursAt(text, part, at) then Some(at) else if at == |text| then None else IndexFrom(text, part, at + 1)
  }

  // ----- Entities -----

  datatype Target = Target(taskId: string, path: string)

  datatype Opinion = Pass | Fail | Uncertain

  datatype Quote = Quote(path: string, text: string)

  /** One row of a response that has the expected shape. */
  datatype Review = Review(taskId: string, path: string, opinion: Opinion, reason: string, evidence: seq<Quote>)

  datatype Evidence = Evidence(path: string, quote: string, digest: Digest<string>, offset: nat, length: nat)

  datatype Verdict = Verdict(taskId: string, path: string, opinion: Opinion, reason: string, evidence: seq<Evidence>)

  datatype Role = Produced | Supplied

  datatype Artifact = Artifact(path: string, role: Role, content: string)

  const MAX_REASON := 1600
  const MAX_EVIDENCE := 4
  const MAX_QUOTE := 512

  function TargetKey(taskId: string, path: string): string {
    taskId + ['\0'] + path
  }

  function KeyOf(t: Target): string {
    TargetKey(t.taskId, t.path)
  }

  function ReviewKey(r: Review): string {
    TargetKey(r.taskId, r.path)
  }

  /** With a NUL-free task id and path, a key is the key of one pair only, whatever the other pair contains. */
  lemma KeyDecodes(t: Target, taskId: string, path: string)
    requires '\0' !in t.taskId && '\0' !in t.path
    ensures TargetKey(taskId, path) == KeyOf(t) <==> taskId == t.taskId && path == t.path
  {
    var a, b := TargetKey(taskId, path), KeyOf(t);
    assert a[|taskId|] == '\0';
    assert |taskId| < |t.taskId| ==> b[|taskId|] == t.taskId[|taskId|];
    assert |t.taskId| < |taskId| < |b| ==> b[|taskId|] == t.path[|taskId| - |t.taskId| - 1];
    if a == b {
      assert taskId == a[..|taskId|] == b[..|t.taskId|] == t.taskId;
      assert path == a[|taskId| + 1..] == b[|t.taskId| + 1..] == t.path;
    }
  }

  // ----- parseVerdicts -----

  function FindArtifact(artifacts: seq<Artifact>, path: string): (r: Option<Artifact>)
    ensures r.Some? ==> r.value in artifacts && r.value.path == path
    ensures r.None? ==> forall a | a in artifacts :: a.path != path
  {
    if artifacts == [] then None
    else if artifacts[0].path == path then Some(artifacts[0]) else FindArtifact(artifacts[1..], path)
  }

  function Located(artifacts: seq<Artifact>, q: Quote): Option<nat> {
    var a := FindArtifact(artifacts, q.path);
    if a.None? then None else IndexFrom(a.value.content, q.text, 0)
  }

  /** A nonblank bounded quote that is literally in the artifact it names. */
  predicate Literal(artifacts: seq<Artifact>, q: Quote) {
    !Blank(q.text) && Utf16Length(q.text) <= MAX_QUOTE && Located(artifacts, q).Some?
  }

  function EvidenceOf(artifacts: seq<Artifact>, q: Quote): Evidence
    requires Located(artifacts, q).Some?
  {
    var content := FindArtifact(artifacts, q.path).value.content;
    Evidence(q.path, q.text, Sha256(q.text), Utf16Length(content[..Located(artifacts, q).value]), Utf16Length(q.text))
  }

  ghost predicate ReviewFine(artifacts: seq<Artifact>, r: Review) {
    && !Blank(r.reason) && Utf16Length(r.reason) <= MAX_REASON && |r.evidence| <= MAX_EVIDENCE
    && (forall i | 0 <= i < |r.evidence| :: Literal(artifacts, r.evidence[i]))
    && (r.opinion.Uncertain? || exists i :: 0 <= i < |r.evidence| && r.evidence[i].path == r.path)
  }

  function KeysOf(targets: seq<Target>): (keys: seq<string>)
    ensures |keys| == |targets|
    ensures forall i | 0 <= i < |keys| :: keys[i] == KeyOf(targets[i])
  {
    seq(|targets|, i requires 0 <= i < |targets| => KeyOf(targets[i]))
  }

  function ReviewKeys(reviews: seq<Review>): (keys: seq<string>)
    ensures |keys| == |reviews|
    ensures forall i | 0 <= i < |keys| :: keys[i] == ReviewKey(reviews[i])
  {
    seq(|reviews|, i requires 0 <= i < |reviews| => ReviewKey(reviews[i]))
  }

  /** No key twice, and none that was not asked for. */
  ghost predicate Answers(asked: seq<string>, given: seq<string>) {
    Distinct(given) && forall i | 0 <= i < |given| :: given[i] in asked
  }

  /** What a response must be: as many rows as targets, no target twice, none unexpected, every row supported. */
  ghost predicate ResponseFine(targets: seq<Target>, artifacts: seq<Artifact>, reviews: seq<Review>) {
    && |reviews| == |targets|
    && (forall i | 0 <= i < |reviews| :: ReviewFine(artifacts, reviews[i]))
    && Answers(KeysOf(targets), ReviewKeys(reviews))
  }

  ghost predicate IsVerdict(artifacts: seq<Artifact>, r: Review, v: Verdict) {
    && v.taskId == r.taskId && v.path == r.path && v.opinion == r.opinion && v.reason == Trim(r.reason)
    && |v.evidence| == |r.evidence|
    && forall i | 0 <= i < |r.evidence| ::
         Located(artifacts, r.evidence[i]).Some? && v.evidence[i] == EvidenceOf(artifacts, r.evidence[i])
  }

  method ParseEvidence(artifacts: seq<Artifact>, quotes: seq<Quote>) returns (evidence: Option<seq<Evidence>>)
    ensures evidence.Some? <==> forall i | 0 <= i < |quotes| :: Literal(artifacts, quotes[i])
    ensures evidence.Some? ==> |evidence.value| == |quotes|
    ensures evidence.Some? ==> forall i | 0 <= i < |quotes| ::
              Located(artifacts, quotes[i]).Some? && evidence.value[i] == EvidenceOf(artifacts, quotes[i])
  {
    var found: seq<Evidence> := [];
    for i := 0 to |quotes|
      invariant |found| == i
      invariant forall k | 0 <= k < i :: Literal(artifacts, quotes[k]) && found[k] == EvidenceOf(artifacts, quotes[k])
    {
      if !Literal(artifacts, quotes[i]) {
        return None;
      }
      found := found + [EvidenceOf(artifacts, quotes[i])];
    }
    evidence := Some(found);
  }

  method ParseReview(artifacts: seq<Artifact>, r: Review) returns (verdict: Option<Verdict>)
    ensures verdict.Some? <==> ReviewFine(artifacts, r)
    ensures verdict.Some? ==> IsVerdict(artifacts, r, verdict.value)
  {
    if Blank(r.reason) || Utf16Length(r.reason) > MAX_REASON || |r.evidence| > MAX_EVIDENCE {
      return None;
    }
    var evidence := ParseEvidence(artifacts, r.evidence);
    if evidence.None? {
      return None;
    }
    var primary := exists i :: 0 <= i < |evidence.value| && evidence.value[i].path == r.path;
    if !r.opinion.Uncertain? && !primary {
      return None;
    }
    verdict := Some(Verdict(r.taskId, r.path, r.opinion, Trim(r.reason), evidence.value));
  }

  /** The keys not yet answered after n rows. */
  ghost predicate Remaining(asked: seq<string>, given: seq<string>, n: nat, remaining: set<string>) {
    && n <= |given|
    && (forall key :: key in remaining <==> key in asked && forall i | 0 <= i < n :: given[i] != key)
    && (forall i | 0 <= i < n :: given[i] in asked)
    && (forall i, j | 0 <= i < j < n :: given[i] != given[j])
  }

  lemma TakeKey(asked: seq<string>, given: seq<string>, n: nat, remaining: set<string>)
    requires n < |given| && Remaining(asked, given, n, remaining)
    ensures given[n] in remaining ==> Remaining(asked, given, n + 1, remaining - {given[n]})
    ensures given[n] !in remaining ==> !Answers(asked, given)
  {
  }

  method ParseVerdicts(targets: seq<Target>, artifacts: seq<Artifact>, reviews: seq<Review>)
    returns (verdicts: Option<seq<Verdict>>)
    ensures verdicts.Some? <==> ResponseFine(targets, artifacts, reviews)
    ensures verdicts.Some? ==> |verdicts.value| == |reviews|
    ensures verdicts.Some? ==> forall i | 0 <= i < |reviews| :: IsVerdict(artifacts, reviews[i], verdicts.value[i])
  {
    if |reviews| != |targets| {
      return None;
    }
    ghost var asked, given := KeysOf(targets), ReviewKeys(reviews);
    var remaining := set t | t in targets :: KeyOf(t);
    assert forall i | 0 <= i < |targets| :: asked[i] == KeyOf(targets[i]);
    var parsed: seq<Verdict> := [];
    for i := 0 to |reviews|
      invariant |parsed| == i
      invariant Remaining(asked, given, i, remaining)
      invariant forall k | 0 <= k < i :: ReviewFine(artifacts, reviews[k]) && IsVerdict(artifacts, reviews[k], parsed[k])
    {
      TakeKey(asked, given, i, remaining);
      var key := ReviewKey(reviews[i]);
      if key !in remaining {
        return None;
      }
      remaining := remaining - {key};
      var verdict := ParseReview(artifacts, reviews[i]);
      if verdict.None? {
        return None;
      }
      parsed := parsed + [verdict.value];
    }
    verdicts := Some(parsed);
  }

  // ----- Each target is answered exactly once -----

  ghost predicate CleanTargets(targets: seq<Target>) {
    && Distinct(targets)
    && forall t | t in targets :: '\0' !in t.taskId && '\0' !in t.path
  }

  /** A response that is fine answers every target in exactly one row, although only its keys were compared. */
  lemma AnsweredOnce(targets: seq<Target>, artifacts: seq<Artifact>, reviews: seq<Review>, t: Target) returns (i: nat)
    requires CleanTargets(targets) && ResponseFine(targets, artifacts, reviews) && t in targets
    ensures i < |reviews| && reviews[i].taskId == t.taskId && reviews[i].path == t.path
    ensures forall j | 0 <= j < |reviews| && reviews[j].taskId == t.taskId && reviews[j].path == t.path :: j == i
  {
    var answered := seq(|reviews|, k requires 0 <= k < |reviews| => Target(reviews[k].taskId, reviews[k].path));
    forall k | 0 <= k < |reviews|
      ensures answered[k] in targets
    {
      assert ReviewKeys(reviews)[k] in KeysOf(targets);
      var u :| 0 <= u < |targets| && KeysOf(targets)[u] == ReviewKey(reviews[k]);
      KeyDecodes(targets[u], reviews[k].taskId, reviews[k].path);
    }
    AnsweredDistinct(reviews, answered);
    i := AllAnswered(targets, answered, t);
  }

  lemma AllAnswered(targets: seq<Target>, answered: seq<Target>, t: Target) returns (i: nat)
    requires Distinct(targets) && Distinct(answered) && |answered| == |targets| && t in targets
    requires forall k | 0 <= k < |answered| :: answered[k] in targets
    ensures i < |answered| && answered[i] == t
  {
    DistinctSetSize(answered);
    DistinctSetSize(targets);
    var given, asked := set x | x in answered, set x | x in targets;
    SubsetOfSameSize(given, asked);
    assert t in given;
    i :| 0 <= i < |answered| && answered[i] == t;
  }

  lemma AnsweredDistinct(reviews: seq<Review>, answered: seq<Target>)
    requires |answered| == |reviews|
    requires forall k | 0 <= k < |reviews| :: answered[k] == Target(reviews[k].taskId, reviews[k].path)
    requires Distinct(ReviewKeys(reviews))
    ensures Distinct(answered)
  {
    forall i, j | 0 <= i < j < |answered|
      ensures answered[i] != answered[j]
    {
      assert ReviewKeys(reviews)[i] != ReviewKeys(reviews)[j];
    }
  }

  // ----- One review -----

  datatype Model = Model(providerID: string, modelID: string, variant: Option<string>)

  /** The system prompt is fixed, so the digest stands for the model. */
  function ConfigurationDigest(m: Model): Option<Digest<Model>> {
    if !Blank(m.providerID) && Utf16Length(m.providerID) <= 200 && !Blank(m.modelID) && Utf16Length(m.modelID) <= 200
       && (m.variant.Some? ==> !Blank(m.variant.value) && Utf16Length(m.variant.value) <= 64)
    then Some(Sha256(m)) else None
  }

  datatype TrialIdentity = TrialIdentity(stageId: string, trialId: string, yamlHash: Digest<string>, planHash: string)

  datatype Identity = Identity(trial: TrialIdentity, intentDigest: Digest<string>, caseId: string, runId: string, runNumber: nat)

  datatype Recorded = Recorded(path: string, role: Role, digest: Digest<string>, bytes: nat)

  datatype Grade = Passed | Failed | Unsure | Unavailable

  datatype Receipt = Receipt(
    grade: Grade, identity: Identity, model: Model, configuration: Digest<Model>, request: Digest<string>,
    response: Option<Digest<string>>, sessionId: Option<string>, artifacts: seq<Recorded>, verdicts: seq<Verdict>)

  datatype Check = Check(target: Target, passed: bool)

  datatype Outcome = Outcome(success: bool, checks: seq<Check>, receipt: Option<Receipt>)

  /** A bounded regular file without other links, as decoded. */
  datatype FileText = FileText(content: string, isJson: bool)

  datatype Request = Request(
    identity: Identity, intentText: string, yamlText: string, targets: seq<Target>, references: seq<string>,
    runSucceeded: bool, succeeded: map<string, bool>, model: Option<Model>, secrets: seq<string>)

  /** The reviewer's answer; reviews is the parsed text when that has the expected shape. */
  datatype Reply = NoReply | Reply(sessionId: string, finished: bool, text: string, reviews: Option<seq<Review>>)

  /** render is the serialized request; the files are read before and after the reviewer is asked. */
  datatype World = World(
    before: map<string, FileText>, after: map<string, FileText>, reply: Reply, cancelled: bool,
    render: (Request, seq<Artifact>) -> string)

  predicate HasSecret(text: string, secrets: seq<string>) {
    exists i | 0 <= i < |secrets| :: secrets[i] != "" && IndexFrom(text, secrets[i], 0).Some?
  }

  predicate IsIdChar(c: char) {
    'a' <= c <= 'z' || 'A' <= c <= 'Z' || '0' <= c <= '9' || c == '_' || c == '-'
  }

  predicate IsId(s: string, max: nat) {
    1 <= |s| <= max && forall i | 0 <= i < |s| :: IsIdChar(s[i])
  }

  predicate IsSession(s: string) {
    |s| >= 4 && s[..4] == "ses_" && IsId(s[4..], 120)
  }

  predicate IsPlanHash(s: string) {
    |s| in {40, 64} && forall i | 0 <= i < |s| :: '0' <= s[i] <= '9' || 'a' <= s[i] <= 'f'
  }

  predicate SafePath(path: string) {
    && Utf16Length(path) <= 240
    && (forall i | 0 <= i < |path| :: path[i] != '\0' && path[i] != ':')
    && path != "" && path[0] != '/'
    && forall i | 0 <= i < |Split(Slashes(path), '/')| :: Split(Slashes(path), '/')[i] !in {"", ".", ".."}
  }

  const FILE_BYTES := 32 * 1024

  predicate JsonName(path: string) {
    |path| >= 5 && Lower(path[|path| - 5..]) == ".json"
  }

  function Capture(files: map<string, FileText>, path: string, produced: bool, secrets: seq<string>): (r: Option<Artifact>)
    ensures r.Some? ==> r.value.path == path && (r.value.role == Produced <==> produced)
    ensures r.Some? ==> '\0' !in path && Utf8Length(r.value.content) <= FILE_BYTES && (produced ==> !Blank(r.value.content))
  {
    if !SafePath(path) || path !in files then None
    else
      var f := files[path];
      if Utf8Length(f.content) > FILE_BYTES || '\0' in f.content || (produced && Blank(f.content))
         || (produced && JsonName(path) && !f.isJson) || HasSecret(f.content, secrets)
      then None
      else Some(Artifact(path, if produced then Produced else Supplied, f.content))
  }

  predicate IsTargetPath(targets: seq<Target>, path: string) {
    exists i | 0 <= i < |targets| :: targets[i].path == path
  }

  function TargetPaths(targets: seq<Target>): (paths: seq<string>)
    ensures |paths| == |targets|
    ensures forall i | 0 <= i < |paths| :: paths[i] == targets[i].path
  {
    seq(|targets|, i requires 0 <= i < |targets| => targets[i].path)
  }

  function EvidencePaths(request: Request): seq<string> {
    SortStrings(Deduplicate(TargetPaths(request.targets) + request.references))
  }

  function CaptureAll(files: map<string, FileText>, paths: seq<string>, targets: seq<Target>, secrets: seq<string>)
    : (r: Option<seq<Artifact>>)
    ensures r.Some? ==> |r.value| == |paths|
    ensures r.Some? ==> forall i | 0 <= i < |paths| ::
              Capture(files, paths[i], IsTargetPath(targets, paths[i]), secrets) == Some(r.value[i])
    ensures r.None? ==> exists i | 0 <= i < |paths| ::
              Capture(files, paths[i], IsTargetPath(targets, paths[i]), secrets).None?
  {
    if paths == [] then Some([])
    else
      var n := |paths| - 1;
      var rest := CaptureAll(files, paths[..n], targets, secrets);
      var last := Capture(files, paths[n], IsTargetPath(targets, paths[n]), secrets);
      if rest.None? || last.None? then None else Some(rest.value + [last.value])
  }

  function TotalBytes(artifacts: seq<Artifact>): nat {
    if artifacts == [] then 0 else Utf8Length(artifacts[0].content) + TotalBytes(artifacts[1..])
  }

  function LowerPaths(targets: seq<Target>): (paths: seq<string>)
    ensures |paths| == |targets|
    ensures forall i | 0 <= i < |paths| :: paths[i] == Lower(targets[i].path)
  {
    seq(|targets|, i requires 0 <= i < |targets| => Lower(targets[i].path))
  }

  ghost predicate TargetsFine(targets: seq<Target>) {
    && 1 <= |targets| <= 16
    && Distinct(KeysOf(targets)) && Distinct(LowerPaths(targets))
  }

  predicate ContextFine(request: Request) {
    && !Blank(request.intentText) && !Blank(request.yamlText)
    && request.identity.intentDigest == Sha256(request.intentText)
    && request.identity.trial.yamlHash == Sha256(request.yamlText)
    && IsPlanHash(request.identity.trial.planHash)
    && IsId(request.identity.trial.stageId, 128) && IsId(request.identity.trial.trialId, 128)
    && IsId(request.identity.caseId, 128) && IsId(request.identity.runId, 128)
    && 1 <= request.identity.runNumber <= 3
    && Utf8Length(request.intentText) <= 32 * 1024 && Utf8Length(request.yamlText) <= 64 * 1024
  }

  predicate TargetsSucceeded(request: Request) {
    forall t | t in request.targets :: t.taskId in request.succeeded && request.succeeded[t.taskId]
  }

  predicate TaskIdsFine(request: Request) {
    forall id | id in request.succeeded :: Prerequisites.ValidTaskId(id)
  }

  /** Everything checked before the artifacts are read. */
  ghost predicate RequestFine(request: Request) {
    && request.model.Some? && request.runSucceeded
    && TargetsSucceeded(request) && TaskIdsFine(request)
    && TargetsFine(request.targets)
    && ConfigurationDigest(request.model.value).Some?
    && ContextFine(request)
    && |EvidencePaths(request)| <= 32
  }

  function ArtifactsOf(request: Request, files: map<string, FileText>): Option<seq<Artifact>> {
    CaptureAll(files, EvidencePaths(request), request.targets, request.secrets)
  }

  ghost predicate EvidenceFine(request: Request, world: World) {
    && ArtifactsOf(request, world.before).Some?
    && var artifacts := ArtifactsOf(request, world.before).value;
       && TotalBytes(artifacts) <= 128 * 1024
       && Utf8Length(world.render(request, artifacts)) <= 256 * 1024
       && !HasSecret(world.render(request, artifacts), request.secrets)
  }

  ghost predicate ReplyFine(request: Request, reply: Reply) {
    && reply.Reply? && IsSession(reply.sessionId) && reply.finished
    && Utf8Length(reply.text) <= 64 * 1024 && !HasSecret(reply.text, request.secrets)
    && reply.reviews.Some?
  }

  /** The review took place: its request, reply and response were all in order, and the artifacts stayed as they were. */
  ghost predicate Reviewed(request: Request, world: World) {
    && !world.cancelled
    && RequestFine(request) && EvidenceFine(request, world) && ReplyFine(request, world.reply)
    && ResponseFine(request.targets, ArtifactsOf(request, world.before).value, world.reply.reviews.value)
    && ArtifactsOf(request, world.after) == ArtifactsOf(request, world.before)
  }

  function Record(artifacts: seq<Artifact>): (r: seq<Recorded>)
    ensures |r| == |artifacts|
    ensures forall i | 0 <= i < |r| ::
              r[i] == Recorded(artifacts[i].path, artifacts[i].role, Sha256(artifacts[i].content), Utf8Length(artifacts[i].content))
  {
    seq(|artifacts|, i requires 0 <= i < |artifacts| =>
      Recorded(artifacts[i].path, artifacts[i].role, Sha256(artifacts[i].content), Utf8Length(artifacts[i].content)))
  }

  function FirstReceipt(request: Request, artifacts: seq<Artifact>, text: string): Receipt
    requires request.model.Some? && ConfigurationDigest(request.model.value).Some?
  {
    Receipt(Unavailable, request.identity, request.model.value, ConfigurationDigest(request.model.value).value, Sha256(text),
            None, None, Record(artifacts), [])
  }

  ghost predicate AllPass(reviews: seq<Review>) {
    forall i | 0 <= i < |reviews| :: reviews[i].opinion.Pass?
  }

  /** The receipt of a review that took place. */
  ghost predicate ReceiptFor(request: Request, world: World, r: Receipt)
    requires Reviewed(request, world)
  {
    var artifacts, reviews := ArtifactsOf(request, world.before).value, world.reply.reviews.value;
    && r == FirstReceipt(request, artifacts, world.render(request, artifacts))
              .(grade := r.grade, response := Some(Sha256(world.reply.text)), sessionId := Some(world.reply.sessionId),
                verdicts := r.verdicts)
    && |r.verdicts| == |reviews|
    && (forall i | 0 <= i < |reviews| :: IsVerdict(artifacts, reviews[i], r.verdicts[i]))
    && (r.grade == Passed <==> AllPass(reviews))
    && (r.grade == Unsure <==> exists i :: 0 <= i < |reviews| && reviews[i].opinion.Uncertain?)
    && r.grade != Unavailable
  }

  method CheckTargets(targets: seq<Target>) returns (fine: bool)
    ensures fine <==> TargetsFine(targets)
  {
    if targets == [] || |targets| > 16 {
      return false;
    }
    var keys := set t | t in targets :: KeyOf(t);
    var paths := set t | t in targets :: Lower(t.path);
    ghost var allKeys, allPaths := KeysOf(targets), LowerPaths(targets);
    assert keys == set k | k in allKeys by {
      assert forall i | 0 <= i < |targets| :: allKeys[i] == KeyOf(targets[i]);
    }
    assert paths == set k | k in allPaths by {
      assert forall i | 0 <= i < |targets| :: allPaths[i] == Lower(targets[i].path);
    }
    SetSizeDistinct(allKeys);
    SetSizeDistinct(allPaths);
    fine := |keys| == |targets| && |paths| == |targets|;
  }

  method CheckRequest(request: Request) returns (fine: bool)
    ensures fine <==> RequestFine(request)
  {
    if request.model.None? || !request.runSucceeded || !TargetsSucceeded(request) || !TaskIdsFine(request) {
      return false;
    }
    var targetsFine := CheckTargets(request.targets);
    if !targetsFine || ConfigurationDigest(request.model.value).None? {
      return false;
    }
    fine := ContextFine(request) && |EvidencePaths(request)| <= 32;
  }

  function Unreviewed(targets: seq<Target>): (checks: seq<Check>)
    ensures |checks| == |targets| && forall i | 0 <= i < |targets| :: checks[i] == Check(targets[i], false)
  {
    seq(|targets|, i requires 0 <= i < |targets| => Check(targets[i], false))
  }

  /** What the review says of one target: the verdict of the row with its key. */
  ghost predicate PassesTarget(reviews: seq<Review>, t: Target) {
    exists i :: 0 <= i < |reviews| && ReviewKey(reviews[i]) == KeyOf(t) && reviews[i].opinion.Pass?
  }

  function VerdictFor(verdicts: seq<Verdict>, key: string): (r: Option<Verdict>)
    ensures r.Some? ==> r.value in verdicts && TargetKey(r.value.taskId, r.value.path) == key
    ensures r.None? ==> forall v | v in verdicts :: TargetKey(v.taskId, v.path) != key
  {
    if verdicts == [] then None
    else if TargetKey(verdicts[0].taskId, verdicts[0].path) == key then Some(verdicts[0]) else VerdictFor(verdicts[1..], key)
  }

  predicate VerdictPasses(verdicts: seq<Verdict>, t: Target) {
    VerdictFor(verdicts, KeyOf(t)).Some? && VerdictFor(verdicts, KeyOf(t)).value.opinion.Pass?
  }

  /** A decided review's checks, one for each target in order. */
  method DecideChecks(targets: seq<Target>, verdicts: seq<Verdict>) returns (checks: seq<Check>)
    ensures |checks| == |targets|
    ensures forall i | 0 <= i < |targets| :: checks[i] == Check(targets[i], VerdictPasses(verdicts, targets[i]))
  {
    checks := [];
    for i := 0 to |targets|
      invariant |checks| == i
      invariant forall k | 0 <= k < i :: checks[k] == Check(targets[k], VerdictPasses(verdicts, targets[k]))
    {
      checks := checks + [Check(targets[i], VerdictPasses(verdicts, targets[i]))];
    }
  }

  lemma PassedRow(artifacts: seq<Artifact>, reviews: seq<Review>, verdicts: seq<Verdict>, t: Target)
    requires |verdicts| == |reviews| && Distinct(ReviewKeys(reviews))
    requires forall i | 0 <= i < |reviews| :: IsVerdict(artifacts, reviews[i], verdicts[i])
    ensures VerdictPasses(verdicts, t) <==> PassesTarget(reviews, t)
  {
    var v := VerdictFor(verdicts, KeyOf(t));
    if v.Some? {
      var k :| 0 <= k < |verdicts| && verdicts[k] == v.value;
      assert IsVerdict(artifacts, reviews[k], verdicts[k]);
      assert ReviewKey(reviews[k]) == KeyOf(t);
      forall i | 0 <= i < |reviews| && ReviewKey(reviews[i]) == KeyOf(t)
        ensures i == k
      {
        assert ReviewKeys(reviews)[i] == ReviewKeys(reviews)[k];
      }
    } else {
      forall i | 0 <= i < |reviews|
        ensures ReviewKey(reviews[i]) != KeyOf(t)
      {
        assert IsVerdict(artifacts, reviews[i], verdicts[i]);
        assert verdicts[i] in verdicts;
      }
    }
  }

  function GradeOf(verdicts: seq<Verdict>): Grade {
    if exists i :: 0 <= i < |verdicts| && verdicts[i].opinion.Uncertain? then Unsure
    else if exists i :: 0 <= i < |verdicts| && verdicts[i].opinion.Fail? then Failed
    else Passed
  }

  lemma GradeMeaning(artifacts: seq<Artifact>, reviews: seq<Review>, verdicts: seq<Verdict>)
    requires |verdicts| == |reviews|
    requires forall i | 0 <= i < |reviews| :: IsVerdict(artifacts, reviews[i], verdicts[i])
    ensures GradeOf(verdicts) == Passed <==> AllPass(reviews)
    ensures GradeOf(verdicts) == Unsure <==> exists i :: 0 <= i < |reviews| && reviews[i].opinion.Uncertain?
    ensures GradeOf(verdicts) != Unavailable
  {
    assert forall i | 0 <= i < |reviews| :: verdicts[i].opinion == reviews[i].opinion;
  }

  lemma RowPasses(targets: seq<Target>, reviews: seq<Review>, i: nat)
    requires Answers(KeysOf(targets), ReviewKeys(reviews)) && i < |reviews|
    requires forall t | t in targets :: PassesTarget(reviews, t)
    ensures reviews[i].opinion.Pass?
  {
    assert ReviewKeys(reviews)[i] in KeysOf(targets);
    var k :| 0 <= k < |targets| && KeysOf(targets)[k] == ReviewKey(reviews[i]);
    assert PassesTarget(reviews, targets[k]);
    var j :| 0 <= j < |reviews| && ReviewKey(reviews[j]) == KeyOf(targets[k]) && reviews[j].opinion.Pass?;
    assert ReviewKeys(reviews)[i] == ReviewKeys(reviews)[j];
  }

  /** All targets pass exactly if all rows do. */
  lemma AllTargetsPass(targets: seq<Target>, artifacts: seq<Artifact>, reviews: seq<Review>)
    requires CleanTargets(targets) && ResponseFine(targets, artifacts, reviews)
    ensures (forall t | t in targets :: PassesTarget(reviews, t)) <==> AllPass(reviews)
  {
    if AllPass(reviews) {
      forall t | t in targets
        ensures PassesTarget(reviews, t)
      {
        var i := AnsweredOnce(targets, artifacts, reviews, t);
        assert ReviewKey(reviews[i]) == KeyOf(t);
      }
    }
    if forall t | t in targets :: PassesTarget(reviews, t) {
      forall i | 0 <= i < |reviews|
        ensures reviews[i].opinion.Pass?
      {
        RowPasses(targets, reviews, i);
      }
    }
  }

  /** Reads every artifact again and compares digests. */
  method Unchanged(artifacts: seq<Artifact>, files: map<string, FileText>, secrets: seq<string>) returns (same: bool)
    ensures same <==> forall i | 0 <= i < |artifacts| ::
                        Capture(files, artifacts[i].path, artifacts[i].role == Produced, secrets) == Some(artifacts[i])
  {
    for i := 0 to |artifacts|
      invariant forall k | 0 <= k < i ::
                  Capture(files, artifacts[k].path, artifacts[k].role == Produced, secrets) == Some(artifacts[k])
    {
      var current := Capture(files, artifacts[i].path, artifacts[i].role == Produced, secrets);
      if current.None? || Sha256(current.value.content) != Sha256(artifacts[i].content) {
        return false;
      }
    }
    same := true;
  }

  lemma UnchangedMeaning(before: map<string, FileText>, after: map<string, FileText>, paths: seq<string>,
                         targets: seq<Target>, secrets: seq<string>)
    requires CaptureAll(before, paths, targets, secrets).Some?
    ensures CaptureAll(after, paths, targets, secrets) == CaptureAll(before, paths, targets, secrets) <==>
              var artifacts := CaptureAll(before, paths, targets, secrets).value;
              forall i | 0 <= i < |artifacts| ::
                Capture(after, artifacts[i].path, artifacts[i].role == Produced, secrets) == Some(artifacts[i])
  {
    var artifacts := CaptureAll(before, paths, targets, secrets).value;
    var again := CaptureAll(after, paths, targets, secrets);
    forall i | 0 <= i < |artifacts|
      ensures artifacts[i].path == paths[i] && (artifacts[i].role == Produced) == IsTargetPath(targets, paths[i])
    {
      assert Capture(before, paths[i], IsTargetPath(targets, paths[i]), secrets) == Some(artifacts[i]);
    }
    if forall i | 0 <= i < |artifacts| ::
         Capture(after, artifacts[i].path, artifacts[i].role == Produced, secrets) == Some(artifacts[i]) {
      assert again.Some?;
      assert again.value == artifacts;
    }
  }

  lemma EvidencePathsMeaning(request: Request)
    ensures Distinct(EvidencePaths(request))
    ensures forall path :: path in EvidencePaths(request) <==>
              IsTargetPath(request.targets, path) || path in request.references
  {
    var all := TargetPaths(request.targets) + request.references;
    SortKeepsDistinct(Deduplicate(all), StringLeq);
    SortPermutes(Deduplicate(all), StringLeq);
    forall path
      ensures path in all <==> IsTargetPath(request.targets, path) || path in request.references
    {
      if IsTargetPath(request.targets, path) {
        var i :| 0 <= i < |request.targets| && request.targets[i].path == path;
        assert all[i] == path;
      }
    }
  }

  /** The only artifact of a target: produced, not empty, of bounded size, at a path without NUL. */
  lemma TargetArtifact(request: Request, files: map<string, FileText>, t: Target) returns (k: nat)
    requires ArtifactsOf(request, files).Some? && t in request.targets
    ensures var artifacts := ArtifactsOf(request, files).value;
            && k < |artifacts| && artifacts[k].path == t.path && artifacts[k].role == Produced
            && !Blank(artifacts[k].content) && Utf8Length(artifacts[k].content) <= FILE_BYTES
            && forall i | 0 <= i < |artifacts| && artifacts[i].path == t.path :: i == k
    ensures '\0' !in t.path
  {
    var paths, artifacts := EvidencePaths(request), ArtifactsOf(request, files).value;
    EvidencePathsMeaning(request);
    assert IsTargetPath(request.targets, t.path);
    k :| 0 <= k < |paths| && paths[k] == t.path;
    forall i | 0 <= i < |artifacts|
      ensures artifacts[i].path == paths[i]
    {
      assert Capture(files, paths[i], IsTargetPath(request.targets, paths[i]), request.secrets) == Some(artifacts[i]);
    }
    assert Capture(files, paths[k], IsTargetPath(request.targets, paths[k]), request.secrets) == Some(artifacts[k]);
  }

  lemma TaskIdClean(id: string)
    requires Prerequisites.ValidTaskId(id)
    ensures '\0' !in id
  {
    var dot :| 0 <= dot < |id| && id[dot] == '.' && Prerequisites.IsSegment(id[..dot])
               && Prerequisites.IsSegment(id[dot + 1..]);
    forall i | 0 <= i < |id|
      ensures id[i] != '\0'
    {
      assert i < dot ==> id[i] == id[..dot][i];
      assert i > dot ==> id[i] == id[dot + 1..][i - dot - 1];
    }
  }

  lemma RequestTargetsClean(request: Request, files: map<string, FileText>)
    requires RequestFine(request) && ArtifactsOf(request, files).Some?
    ensures CleanTargets(request.targets)
  {
    var targets := request.targets;
    forall t | t in targets
      ensures '\0' !in t.taskId && '\0' !in t.path
    {
      TaskIdClean(t.taskId);
      var k := TargetArtifact(request, files, t);
    }
    forall i, j | 0 <= i < j < |targets|
      ensures targets[i] != targets[j]
    {
      assert KeysOf(targets)[i] != KeysOf(targets)[j];
    }
  }

  /** Everything up to the reviewer's reply. */
  method PrepareReview(request: Request, world: World) returns (ready: Option<Receipt>)
    ensures ready.Some? <==> RequestFine(request) && EvidenceFine(request, world)
    ensures ready.Some? ==>
              var artifacts := ArtifactsOf(request, world.before).value;
              ready.value == FirstReceipt(request, artifacts, world.render(request, artifacts))
  {
    var fine := CheckRequest(request);
    if !fine {
      return None;
    }
    var captured := ArtifactsOf(request, world.before);
    if captured.None? || TotalBytes(captured.value) > 128 * 1024 {
      return None;
    }
    var text := world.render(request, captured.value);
    if Utf8Length(text) > 256 * 1024 || HasSecret(text, request.secrets) {
      return None;
    }
    ready := Some(FirstReceipt(request, captured.value, text));
  }

  /** What a review that did not take place leaves behind. */
  ghost predicate NotReviewed(request: Request, o: Outcome) {
    && !o.success && o.checks == Unreviewed(request.targets)
    && (o.receipt.Some? ==> o.receipt.value.grade == Unavailable && o.receipt.value.identity == request.identity)
  }

  ghost predicate ReviewDecided(request: Request, world: World, o: Outcome)
    requires Reviewed(request, world)
  {
    var reviews := world.reply.reviews.value;
    && (o.success <==> AllPass(reviews))
    && |o.checks| == |request.targets|
    && (forall i | 0 <= i < |o.checks| ::
          o.checks[i].target == request.targets[i] && (o.checks[i].passed <==> PassesTarget(reviews, request.targets[i])))
    && o.receipt.Some? && ReceiptFor(request, world, o.receipt.value)
  }

  /** The checks of a parsed response say what its rows say. */
  lemma ChecksDecide(targets: seq<Target>, artifacts: seq<Artifact>, reviews: seq<Review>, verdicts: seq<Verdict>,
                     checks: seq<Check>)
    requires CleanTargets(targets) && ResponseFine(targets, artifacts, reviews) && |verdicts| == |reviews|
    requires forall i | 0 <= i < |reviews| :: IsVerdict(artifacts, reviews[i], verdicts[i])
    requires |checks| == |targets|
    requires forall i | 0 <= i < |targets| :: checks[i] == Check(targets[i], VerdictPasses(verdicts, targets[i]))
    ensures forall i | 0 <= i < |checks| ::
              checks[i].target == targets[i] && (checks[i].passed <==> PassesTarget(reviews, targets[i]))
    ensures (forall i | 0 <= i < |checks| :: checks[i].passed) <==> AllPass(reviews)
  {
    forall i | 0 <= i < |checks|
      ensures checks[i].passed <==> PassesTarget(reviews, targets[i])
    {
      PassedRow(artifacts, reviews, verdicts, targets[i]);
    }
    AllTargetsPass(targets, artifacts, reviews);
  }

  /** The checks and the receipt of a review whose response was parsed. */
  method Conclude(request: Request, world: World, receipt: Receipt, verdicts: seq<Verdict>) returns (o: Outcome)
    requires Reviewed(request, world)
    requires var artifacts := ArtifactsOf(request, world.before).value;
             && receipt == FirstReceipt(request, artifacts, world.render(request, artifacts))
             && |verdicts| == |world.reply.reviews.value|
             && forall i | 0 <= i < |verdicts| :: IsVerdict(artifacts, world.reply.reviews.value[i], verdicts[i])
    ensures ReviewDecided(request, world, o)
  {
    ghost var artifacts, reviews := ArtifactsOf(request, world.before).value, world.reply.reviews.value;
    RequestTargetsClean(request, world.before);
    GradeMeaning(artifacts, reviews, verdicts);
    var checks := DecideChecks(request.targets, verdicts);
    ChecksDecide(request.targets, artifacts, reviews, verdicts, checks);
    var success := forall i | 0 <= i < |checks| :: checks[i].passed;
    o := Outcome(success, checks,
                 Some(receipt.(grade := GradeOf(verdicts), response := Some(Sha256(world.reply.text)),
                               sessionId := Some(world.reply.sessionId), verdicts := verdicts)));
  }

  method EvaluateTrialSemanticReview(request: Request, world: World) returns (o: Outcome)
    ensures if Reviewed(request, world) then ReviewDecided(request, world, o) else NotReviewed(request, o)
  {
    o := Outcome(false, Unreviewed(request.targets), None);
    if world.cancelled {
      return;
    }
    var ready := PrepareReview(request, world);
    if ready.None? {
      return;
    }
    var reply := world.reply;
    var receipt := ready.value;
    o := o.(receipt := ready);
    if !reply.Reply? || !IsSession(reply.sessionId) {
      return;
    }
    o := o.(receipt := Some(receipt.(sessionId := Some(reply.sessionId))));
    if !reply.finished || Utf8Length(reply.text) > 64 * 1024 || HasSecret(reply.text, request.secrets)
       || reply.reviews.None? {
      return;
    }
    o := o.(receipt := Some(receipt.(sessionId := Some(reply.sessionId), response := Some(Sha256(reply.text)))));
    var artifacts := ArtifactsOf(request, world.before).value;
    var verdicts := ParseVerdicts(request.targets, artifacts, reply.reviews.value);
    if verdicts.None? {
      return;
    }
    var same := Unchanged(artifacts, world.after, request.secrets);
    UnchangedMeaning(world.before, world.after, EvidencePaths(request), request.targets, request.secrets);
    if same {
      o := Conclude(request, world, receipt, verdicts.value);
    }
  }

  // ----- What a receipt stands for -----

  /** The quote is in the file: e.offset is where it occurs first, in UTF-16 code units. */
  ghost predicate EvidenceStands(files: map<string, FileText>, e: Evidence) {
    && e.path in files && !Blank(e.quote) && e.digest == Sha256(e.quote)
    && e.length == Utf16Length(e.quote) <= 512
    && exists at: nat :: OccursAt(files[e.path].content, e.quote, at)
         && (forall k: nat | k < at :: !OccursAt(files[e.path].content, e.quote, k))
         && e.offset == Utf16Length(files[e.path].content[..at])
  }

  /** The recorded artifact is the file before and after the review, bounded and without secrets. */
  ghost predicate ArtifactStands(request: Request, world: World, a: Recorded) {
    && a.path in world.before && a.path in world.after
    && a.digest == Sha256(world.before[a.path].content) && a.digest == Sha256(world.after[a.path].content)
    && a.bytes == Utf8Length(world.before[a.path].content) <= 32768
    && (a.role == Produced <==> exists t :: t in request.targets && t.path == a.path)
    && (a.role == Produced ==> !Blank(world.before[a.path].content))
    && forall secret | secret in request.secrets && secret != "" :: !Contains(world.before[a.path].content, secret)
  }

  lemma SecretFound(text: string, secrets: seq<string>)
    ensures HasSecret(text, secrets) <==> exists secret :: secret in secrets && secret != "" && Contains(text, secret)
  {
    if secret :| secret in secrets && secret != "" && Contains(text, secret) {
      var i :| 0 <= i < |secrets| && secrets[i] == secret;
      assert IndexFrom(text, secrets[i], 0).Some?;
    }
    if HasSecret(text, secrets) {
      var i :| 0 <= i < |secrets| && secrets[i] != "" && IndexFrom(text, secrets[i], 0).Some?;
      assert Contains(text, secrets[i]);
    }
  }

  lemma CapturedStands(files: map<string, FileText>, path: string, produced: bool, secrets: seq<string>)
    requires Capture(files, path, produced, secrets).Some?
    ensures path in files
    ensures Capture(files, path, produced, secrets).value
         == Artifact(path, if produced then Produced else Supplied, files[path].content)
    ensures Utf8Length(files[path].content) <= 32768 && (produced ==> !Blank(files[path].content))
    ensures forall secret | secret in secrets && secret != "" :: !Contains(files[path].content, secret)
  {
    SecretFound(files[path].content, secrets);
  }

  lemma RecordedStands(request: Request, world: World, i: nat)
    requires Reviewed(request, world) && i < |ArtifactsOf(request, world.before).value|
    ensures ArtifactStands(request, world, Record(ArtifactsOf(request, world.before).value)[i])
  {
    var paths, artifacts := EvidencePaths(request), ArtifactsOf(request, world.before).value;
    var produced := IsTargetPath(request.targets, paths[i]);
    CapturedStands(world.before, paths[i], produced, request.secrets);
    CapturedStands(world.after, paths[i], produced, request.secrets);
  }

  lemma QuoteStands(request: Request, world: World, q: Quote)
    requires Reviewed(request, world) && Literal(ArtifactsOf(request, world.before).value, q)
    ensures EvidenceStands(world.before, EvidenceOf(ArtifactsOf(request, world.before).value, q))
  {
    var paths, artifacts := EvidencePaths(request), ArtifactsOf(request, world.before).value;
    var a := FindArtifact(artifacts, q.path).value;
    var i :| 0 <= i < |artifacts| && artifacts[i] == a;
    CapturedStands(world.before, paths[i], IsTargetPath(request.targets, paths[i]), request.secrets);
    var at := Located(artifacts, q).value;
    assert OccursAt(world.before[q.path].content, q.text, at);
  }

  lemma EvidenceInVerdict(request: Request, world: World, review: Review, v: Verdict, e: Evidence)
    requires Reviewed(request, world) && e in v.evidence
    requires ReviewFine(ArtifactsOf(request, world.before).value, review)
    requires IsVerdict(ArtifactsOf(request, world.before).value, review, v)
    ensures EvidenceStands(world.before, e)
  {
    var i :| 0 <= i < |v.evidence| && v.evidence[i] == e;
    QuoteStands(request, world, review.evidence[i]);
  }

  lemma JudgedIsQuoted(artifacts: seq<Artifact>, review: Review, v: Verdict)
    requires ReviewFine(artifacts, review) && IsVerdict(artifacts, review, v) && review.opinion != Uncertain
    ensures exists e :: e in v.evidence && e.path == v.path
  {
    var i :| 0 <= i < |review.evidence| && review.evidence[i].path == review.path;
    assert v.evidence[i] in v.evidence && v.evidence[i].path == v.path;
  }

  lemma VerdictStands(request: Request, world: World, r: Receipt, k: nat)
    requires Reviewed(request, world) && ReceiptFor(request, world, r) && k < |r.verdicts|
    ensures !Blank(r.verdicts[k].reason) && |r.verdicts[k].evidence| <= 4
    ensures forall e | e in r.verdicts[k].evidence :: EvidenceStands(world.before, e)
    ensures r.verdicts[k].opinion != Uncertain ==> exists e :: e in r.verdicts[k].evidence && e.path == r.verdicts[k].path
  {
    var artifacts, review, v := ArtifactsOf(request, world.before).value, world.reply.reviews.value[k], r.verdicts[k];
    assert ReviewFine(artifacts, review) && IsVerdict(artifacts, review, v);
    TrimBlank(review.reason);
    forall e | e in v.evidence
      ensures EvidenceStands(world.before, e)
    {
      EvidenceInVerdict(request, world, review, v, e);
    }
    if v.opinion != Uncertain {
      JudgedIsQuoted(artifacts, review, v);
    }
  }

  /**
   * The receipt of a review that took place stands for what it names: the very intent and pipeline texts, artifacts that
   * were the same before and after, and verdicts with literal quotes from those, one of them from the judged artifact
   * unless the verdict is uncertain.
   */
  lemma ReceiptStands(request: Request, world: World, r: Receipt)
    requires Reviewed(request, world) && ReceiptFor(request, world, r)
    ensures r.identity.intentDigest == Sha256(request.intentText) && r.identity.trial.yamlHash == Sha256(request.yamlText)
    ensures r.identity == request.identity && Some(r.model) == request.model && 1 <= r.identity.runNumber <= 3
    ensures forall a | a in r.artifacts :: ArtifactStands(request, world, a)
    ensures forall k | 0 <= k < |r.verdicts| :: !Blank(r.verdicts[k].reason) && |r.verdicts[k].evidence| <= 4
    ensures forall k, e | 0 <= k < |r.verdicts| && e in r.verdicts[k].evidence :: EvidenceStands(world.before, e)
    ensures forall k | 0 <= k < |r.verdicts| && r.verdicts[k].opinion != Uncertain ::
              exists e :: e in r.verdicts[k].evidence && e.path == r.verdicts[k].path
  {
    forall a | a in r.artifacts
      ensures ArtifactStands(request, world, a)
    {
      var i :| 0 <= i < |r.artifacts| && r.artifacts[i] == a;
      RecordedStands(request, world, i);
    }
    forall k | 0 <= k < |r.verdicts|
      ensures !Blank(r.verdicts[k].reason) && |r.verdicts[k].evidence| <= 4
      ensures forall e | e in r.verdicts[k].evidence :: EvidenceStands(world.before, e)
      ensures r.verdicts[k].opinion != Uncertain ==> exists e :: e in r.verdicts[k].evidence && e.path == r.verdicts[k].path
    {
      VerdictStands(request, world, r, k);
    }
  }
}
