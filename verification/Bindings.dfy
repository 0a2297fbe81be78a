/** The registry of chat-owned pipelines: who may write which target. */
module Bindings {
  import opened Common
  import opened JsonPointer

  datatype Intent = Create | Edit

  datatype Binding = Binding(
    id: string, sessionId: string, requestId: string, intent: Intent, origin: Option<string>, target: string)

  datatype Error =
    | InvalidIdentity | InvalidPath | OriginRequired | OriginForbidden | InvalidRegistry | ReusedRequest | NoTarget
    | NotBound | OwnedTarget

  datatype Result = Ok(binding: Binding) | Failed(error: Error)

  // ----- Identities and paths -----

  predicate IsId(s: string) {
    1 <= |s| <= 200 && forall i | 0 <= i < |s| ::
      'a' <= s[i] <= 'z' || 'A' <= s[i] <= 'Z' || '0' <= s[i] <= '9' || s[i] == '_' || s[i] == '-'
  }

  /** A segment that names something. */
  predicate NamesEntry(segment: string) {
    segment != "" && segment != "." && segment != ".."
  }

  /** A relative path with forward slashes and no empty or dot segments. */
  predicate IsRelative(path: string) {
    && path != "" && path[0] != '/'
    && !(|path| >= 3 && IsLetter(path[0]) && path[1] == ':' && path[2] == '/')
    && forall i | 0 <= i < |Split(path, '/')| :: NamesEntry(Split(path, '/')[i])
  }

  function WithoutDot(forward: string): string {
    if |forward| >= 2 && forward[..2] == "./" then forward[2..] else forward
  }

  /** normalizeRelativePath; None stands for the error. */
  function Normalize(path: string): Option<string> {
    var plain := WithoutDot(Slashes(path));
    if IsRelative(plain) then Some(plain) else None
  }

  predicate Normal(path: string) {
    Normalize(path) == Some(path)
  }

  lemma DotSlashSegment(path: string)
    requires |path| >= 2 && path[..2] == "./"
    ensures !IsRelative(path)
  {
    SplitPrefix(".", path[2..], '/');
    assert path == "." + ['/'] + path[2..];
    assert Split(path, '/')[0] == ".";
  }

  /** Normalizing again changes nothing. */
  lemma NormalizeTwice(path: string)
    requires Normalize(path).Some?
    ensures Normal(Normalize(path).value)
  {
    var plain := Normalize(path).value;
    forall i | 0 <= i < |plain|
      ensures plain[i] != '\\'
    {
      assert plain[i] == Slashes(path)[i] || plain[i] == Slashes(path)[i + 2];
    }
    assert Slashes(plain) == plain;
    if |plain| >= 2 && plain[..2] == "./" {
      DotSlashSegment(plain);
    }
  }

  /** The path without one leading "./", if it has any. */
  ghost predicate Written(forward: string, q: string) {
    forward == "./" + q || (forward == q && !(|q| >= 2 && q[0] == '.' && q[1] == '/'))
  }

  lemma DotPrefix(s: string)
    ensures |s| >= 2 && s[..2] == "./" <==> |s| >= 2 && s[0] == '.' && s[1] == '/'
  {
    if |s| >= 2 {
      assert s[..2] == [s[0], s[1]];
    }
  }

  lemma DotAppend(q: string, s: string)
    ensures s == "./" + q <==> |s| >= 2 && s[..2] == "./" && s[2..] == q
  {
    if |s| >= 2 && s[..2] == "./" && s[2..] == q {
      assert s == s[..2] + s[2..];
    }
    assert ("./" + q)[..2] == "./" && ("./" + q)[2..] == q;
  }

  lemma WrittenOnce(forward: string, q: string)
    ensures Written(forward, q) <==> q == WithoutDot(forward)
  {
    DotAppend(q, forward);
    DotPrefix(forward);
    DotPrefix(q);
  }

  /** The path is these names with slashes between them; no name is empty, one dot or two dots. */
  ghost predicate Named(path: string, names: seq<string>) {
    && names != [] && path == Join(names, '/')
    && forall i | 0 <= i < |names| :: '/' !in names[i] && names[i] != "" && names[i] != "." && names[i] != ".."
  }

  /** The path starts like one on a drive. */
  ghost predicate OnDrive(path: string) {
    exists letter: char, rest: string :: IsLetter(letter) && path == [letter] + (":/" + rest)
  }

  lemma DriveMeaning(path: string)
    ensures OnDrive(path) <==> |path| >= 3 && IsLetter(path[0]) && path[1] == ':' && path[2] == '/'
  {
    if |path| >= 3 && IsLetter(path[0]) && path[1] == ':' && path[2] == '/' {
      assert path == [path[0]] + (":/" + path[3..]);
    }
  }

  lemma RelativeMeaning(path: string)
    ensures IsRelative(path) <==> !OnDrive(path) && exists names :: Named(path, names)
  {
    DriveMeaning(path);
    JoinSplit(path, '/');
    if IsRelative(path) {
      assert Named(path, Split(path, '/'));
    }
    if names :| Named(path, names) {
      SplitJoin(names, '/');
      assert path != "" && path[0] != '/' by {
        assert path[0] == names[0][0] && names[0][0] in names[0];
      }
    }
  }

  /** A path normalizes to what is written, with slashes, exactly if that is names with slashes and not on a drive. */
  lemma NormalizeMeaning(path: string, q: string)
    ensures Normalize(path) == Some(q) <==>
              Written(Slashes(path), q) && !OnDrive(q) && exists names :: Named(q, names)
  {
    WrittenOnce(Slashes(path), q);
    RelativeMeaning(q);
  }

  // ----- The stored record -----

  function RequestKey(sessionId: string, requestId: string): string {
    sessionId + ['\0'] + requestId
  }

  /** Joined keys of identities tell the pairs apart. */
  lemma RequestKeyInjective(s1: string, r1: string, s2: string, r2: string)
    requires IsId(s1) && IsId(r1) && IsId(s2) && IsId(r2)
    ensures RequestKey(s1, r1) == RequestKey(s2, r2) <==> s1 == s2 && r1 == r2
  {
    SplitPrefix(s1, r1, '\0');
    SplitPrefix(s2, r2, '\0');
    SplitPrefix(r1, "", '\0');
    SplitPrefix(r2, "", '\0');
    var a, b := Split(RequestKey(s1, r1), '\0'), Split(RequestKey(s2, r2), '\0');
    assert a[0] == s1 && a[1] == r1 && b[0] == s2 && b[1] == r2;
  }

  /** One stored binding is readable as it is. */
  predicate WellFormed(b: Binding) {
    && IsId(b.id) && IsId(b.sessionId) && IsId(b.requestId)
    && (b.origin.Some? ==> Normal(b.origin.value)) && Normal(b.target)
  }

  function Ids(bindings: seq<Binding>): (ids: seq<string>)
    ensures |ids| == |bindings| && forall i | 0 <= i < |ids| :: ids[i] == bindings[i].id
  {
    seq(|bindings|, i requires 0 <= i < |bindings| => bindings[i].id)
  }

  function Keys(bindings: seq<Binding>): (keys: seq<string>)
    ensures |keys| == |bindings|
    ensures forall i | 0 <= i < |keys| :: keys[i] == RequestKey(bindings[i].sessionId, bindings[i].requestId)
  {
    seq(|bindings|, i requires 0 <= i < |bindings| => RequestKey(bindings[i].sessionId, bindings[i].requestId))
  }

  function Targets(bindings: seq<Binding>): (targets: seq<string>)
    ensures |targets| == |bindings| && forall i | 0 <= i < |targets| :: targets[i] == bindings[i].target
  {
    seq(|bindings|, i requires 0 <= i < |bindings| => bindings[i].target)
  }

  /** No id, request or target is used twice. */
  ghost predicate Exclusive(bindings: seq<Binding>) {
    Distinct(Ids(bindings)) && Distinct(Keys(bindings)) && Distinct(Targets(bindings))
  }

  ghost predicate Sound(bindings: seq<Binding>) {
    (forall i | 0 <= i < |bindings| :: WellFormed(bindings[i])) && Exclusive(bindings)
  }

  function ParseBinding(b: Binding): Option<Binding> {
    var target := Normalize(b.target);
    if !IsId(b.id) || !IsId(b.sessionId) || !IsId(b.requestId) || target.None? then None
    else if b.origin.None? then Some(b.(target := target.value))
    else
      var origin := Normalize(b.origin.value);
      if origin.None? then None else Some(b.(origin := origin, target := target.value))
  }

  lemma ParsedIsWellFormed(b: Binding)
    ensures ParseBinding(b).Some? ==> WellFormed(ParseBinding(b).value)
    ensures WellFormed(b) ==> ParseBinding(b) == Some(b)
  {
    if Normalize(b.target).Some? {
      NormalizeTwice(b.target);
    }
    if b.origin.Some? && Normalize(b.origin.value).Some? {
      NormalizeTwice(b.origin.value);
    }
  }

  ghost predicate AllParse(record: seq<Binding>, bindings: seq<Binding>) {
    && |bindings| == |record|
    && forall i | 0 <= i < |record| :: ParseBinding(record[i]) == Some(bindings[i])
  }

  lemma ParseNext(record: seq<Binding>, i: nat, parsed: seq<Binding>, b: Binding)
    requires i < |record| && AllParse(record[..i], parsed) && ParseBinding(record[i]) == Some(b)
    ensures AllParse(record[..i + 1], parsed + [b])
  {
    assert forall k | 0 <= k < i :: record[..i][k] == record[k];
  }

  method ParseAll(record: seq<Binding>) returns (bindings: Option<seq<Binding>>)
    ensures bindings.Some? ==> AllParse(record, bindings.value)
    ensures bindings.None? <==> exists i | 0 <= i < |record| :: ParseBinding(record[i]).None?
  {
    var parsed: seq<Binding> := [];
    for i := 0 to |record|
      invariant AllParse(record[..i], parsed)
      invariant forall k | 0 <= k < i :: ParseBinding(record[k]).Some?
    {
      var b := ParseBinding(record[i]);
      if b.None? {
        return None;
      }
      ParseNext(record, i, parsed, b.value);
      parsed := parsed + [b.value];
    }
    assert record[..|record|] == record;
    bindings := Some(parsed);
  }

  method CheckOwnership(bindings: seq<Binding>) returns (exclusive: bool)
    ensures exclusive <==> Exclusive(bindings)
  {
    var ids: set<string>, requests: set<string>, targets: set<string> := {}, {}, {};
    ghost var allIds, allKeys, allTargets := Ids(bindings), Keys(bindings), Targets(bindings);
    for i := 0 to |bindings|
      invariant SeenNames(ids, allIds, i) && SeenNames(requests, allKeys, i) && SeenNames(targets, allTargets, i)
    {
      var b := bindings[i];
      var key := RequestKey(b.sessionId, b.requestId);
      SeeName(ids, allIds, i);
      SeeName(requests, allKeys, i);
      SeeName(targets, allTargets, i);
      if b.id in ids || key in requests || b.target in targets {
        return false;
      }
      ids, requests, targets := ids + {b.id}, requests + {key}, targets + {b.target};
    }
    exclusive := true;
  }

  /** What a stored record reads as, if it reads at all. */
  ghost predicate ReadsAs(record: seq<Binding>, bindings: Option<seq<Binding>>) {
    if bindings.Some? then AllParse(record, bindings.value) && Sound(bindings.value)
    else forall parsed: seq<Binding> | AllParse(record, parsed) :: !Exclusive(parsed)
  }

  /** readRegistry: a record is read exactly if all its bindings parse and none share an id, request or target. */
  method ReadRegistry(record: seq<Binding>) returns (bindings: Option<seq<Binding>>)
    ensures ReadsAs(record, bindings)
    ensures Sound(record) ==> bindings == Some(record)
  {
    forall i | 0 <= i < |record|
      ensures ParseBinding(record[i]).Some? ==> WellFormed(ParseBinding(record[i]).value)
      ensures WellFormed(record[i]) ==> ParseBinding(record[i]) == Some(record[i])
    {
      ParsedIsWellFormed(record[i]);
    }
    bindings := ParseAll(record);
    if bindings.Some? {
      assert Sound(record) ==> bindings.value == record;
      var exclusive := CheckOwnership(bindings.value);
      if !exclusive {
        forall parsed: seq<Binding> | AllParse(record, parsed)
          ensures parsed == bindings.value
        {
        }
        bindings := None;
      }
    }
  }

  // ----- Reserving a target -----

  const STEM := "pipeline-"
  const YAML := ".yaml"

  /** The random part of a target name. */
  predicate IsStem(s: string) {
    |s| == 12 && forall i | 0 <= i < |s| :: '0' <= s[i] <= '9' || 'a' <= s[i] <= 'f'
  }

  function Candidate(random: string): string {
    var stem := STEM + random;
    stem + ['/'] + (stem + YAML)
  }

  lemma CandidateIsNormal(random: string)
    requires IsStem(random)
    ensures Normal(Candidate(random))
  {
    var stem, path := STEM + random, Candidate(random);
    assert '/' !in stem && '/' !in stem + YAML;
    SplitPrefix(stem, stem + YAML, '/');
    SplitPrefix(stem + YAML, "", '/');
    assert Split(path, '/') == [stem, stem + YAML];
    assert path[0] == 'p' && path[1] == 'i';
    assert forall i | 0 <= i < |path| :: path[i] != '\\';
    assert Slashes(path) == path;
  }

  /** What the program draws at random: an id, and a name for each of its attempts. */
  datatype Draw = Draw(id: string, stems: seq<string>)

  const ATTEMPTS := 32

  ghost predicate FreshDraw(bindings: seq<Binding>, d: Draw) {
    IsId(d.id) && d.id !in Ids(bindings) && |d.stems| == ATTEMPTS && forall i | 0 <= i < |d.stems| :: IsStem(d.stems[i])
  }

  /** The first drawn target that is neither on disk nor owned. */
  function FirstFree(unavailable: set<string>, stems: seq<string>): (target: Option<string>)
    ensures target.Some? ==> target.value !in unavailable && exists i :: 0 <= i < |stems| && target.value == Candidate(stems[i])
    ensures target.None? ==> forall i | 0 <= i < |stems| :: Candidate(stems[i]) in unavailable
  {
    if stems == [] then None
    else if Candidate(stems[0]) !in unavailable then Some(Candidate(stems[0])) else FirstFree(unavailable, stems[1..])
  }

  function Unavailable(bindings: seq<Binding>, disk: set<string>): set<string> {
    disk + set target | target in Targets(bindings)
  }

  method ReserveTargetRelativePath(bindings: seq<Binding>, disk: set<string>, d: Draw) returns (target: Option<string>)
    requires |d.stems| == ATTEMPTS
    ensures target == FirstFree(Unavailable(bindings, disk), d.stems)
  {
    var unavailable := Unavailable(bindings, disk);
    var attempt := 0;
    while attempt < ATTEMPTS
      invariant 0 <= attempt <= ATTEMPTS
      invariant FirstFree(unavailable, d.stems) == FirstFree(unavailable, d.stems[attempt..])
    {
      var candidate := Candidate(d.stems[attempt]);
      assert d.stems[attempt..][1..] == d.stems[attempt + 1..];
      if candidate !in unavailable {
        return Some(candidate);
      }
      attempt := attempt + 1;
    }
    target := None;
  }

  // ----- The operations as functions of the registry -----

  datatype Request = Request(sessionId: string, requestId: string, intent: Intent, origin: Option<string>, forceNew: bool)

  function FindRequest(bindings: seq<Binding>, sessionId: string, requestId: string): (r: Option<Binding>)
    ensures r.Some? ==> r.value in bindings && r.value.sessionId == sessionId && r.value.requestId == requestId
    ensures r.None? ==> forall b | b in bindings :: !(b.sessionId == sessionId && b.requestId == requestId)
  {
    if bindings == [] then None
    else if bindings[0].sessionId == sessionId && bindings[0].requestId == requestId then Some(bindings[0])
    else FindRequest(bindings[1..], sessionId, requestId)
  }

  /** The session's latest binding of a target. */
  function FindOwned(bindings: seq<Binding>, sessionId: string, target: string): (r: Option<Binding>)
    ensures r.Some? ==> r.value in bindings && r.value.sessionId == sessionId && r.value.target == target
    ensures r.None? ==> forall b | b in bindings :: !(b.sessionId == sessionId && b.target == target)
  {
    if bindings == [] then None
    else
      var last := bindings[|bindings| - 1];
      if last.sessionId == sessionId && last.target == target then Some(last)
      else FindOwned(bindings[..|bindings| - 1], sessionId, target)
  }

  /** The first position of an id. */
  function IndexOf(bindings: seq<Binding>, id: string): (i: nat)
    ensures i <= |bindings|
    ensures i < |bindings| ==> bindings[i].id == id
    ensures i == |bindings| ==> forall b | b in bindings :: b.id != id
  {
    if bindings == [] || bindings[0].id == id then 0 else 1 + IndexOf(bindings[1..], id)
  }

  /** The request itself: the error, or the normalized origin. */
  datatype Checked = Rejected(error: Error) | Origin(path: Option<string>)

  function CheckRequest(r: Request): Checked {
    if !IsId(r.sessionId) || !IsId(r.requestId) then Rejected(InvalidIdentity)
    else if r.origin.Some? && Normalize(r.origin.value).None? then Rejected(InvalidPath)
    else if r.intent.Edit? && r.origin.None? then Rejected(OriginRequired)
    else if r.intent.Create? && r.origin.Some? then Rejected(OriginForbidden)
    else Origin(if r.origin.None? then None else Normalize(r.origin.value))
  }

  /** A binding the session already has for the request, if any. */
  function Existing(bindings: seq<Binding>, r: Request, origin: Option<string>): Option<Result> {
    var prior := FindRequest(bindings, r.sessionId, r.requestId);
    if prior.Some? then
      Some(if prior.value.intent != r.intent || prior.value.origin != origin then Failed(ReusedRequest) else Ok(prior.value))
    else if !r.forceNew && r.intent.Edit? && origin.Some? then
      var owned := FindOwned(bindings, r.sessionId, origin.value);
      if owned.Some? then Some(Ok(owned.value)) else None
    else None
  }

  datatype Step = Step(bindings: seq<Binding>, result: Result)

  function Reserve(bindings: seq<Binding>, r: Request, disk: set<string>, d: Draw): Step {
    var checked := CheckRequest(r);
    if checked.Rejected? then Step(bindings, Failed(checked.error))
    else
      var existing := Existing(bindings, r, checked.path);
      if existing.Some? then Step(bindings, existing.value)
      else
        var target := FirstFree(Unavailable(bindings, disk), d.stems);
        if target.None? then Step(bindings, Failed(NoTarget))
        else
          var b := Binding(d.id, r.sessionId, r.requestId, r.intent, checked.path, target.value);
          Step(bindings + [b], Ok(b))
  }

  predicate OwnedByOther(bindings: seq<Binding>, index: nat, target: string) {
    exists i :: 0 <= i < |bindings| && i != index && bindings[i].target == target
  }

  function Rebind(bindings: seq<Binding>, id: string, path: string): Step {
    var index, target := IndexOf(bindings, id), Normalize(path);
    if !IsId(id) then Step(bindings, Failed(InvalidIdentity))
    else if index == |bindings| then Step(bindings, Failed(NotBound))
    else if target.None? then Step(bindings, Failed(InvalidPath))
    else if OwnedByOther(bindings, index, target.value) then Step(bindings, Failed(OwnedTarget))
    else
      var rebound := bindings[index].(target := target.value);
      Step(bindings[index := rebound], Ok(rebound))
  }

  function Relocate(bindings: seq<Binding>, id: string, disk: set<string>, d: Draw): Step {
    var target := FirstFree(Unavailable(bindings, disk), d.stems);
    if !IsId(id) then Step(bindings, Failed(InvalidIdentity))
    else if IndexOf(bindings, id) == |bindings| then Step(bindings, Failed(NotBound))
    else if target.None? then Step(bindings, Failed(NoTarget))
    else Rebind(bindings, id, target.value)
  }

  // ----- What the operations do to a registry -----

  /** The first binding with the id. */
  ghost predicate FirstWithId(bindings: seq<Binding>, id: string, i: nat) {
    i < |bindings| && bindings[i].id == id && forall k | 0 <= k < i :: bindings[k].id != id
  }

  /** The binding now has this target; nothing else of it changed, and no other binding did. */
  ghost predicate Moved(before: seq<Binding>, i: nat, target: string, after: seq<Binding>, result: Result)
    requires i < |before|
  {
    && |after| == |before| && result == Ok(after[i])
    && after[i].target == target
    && after[i].id == before[i].id && after[i].sessionId == before[i].sessionId
    && after[i].requestId == before[i].requestId && after[i].intent == before[i].intent
    && after[i].origin == before[i].origin
    && forall k | 0 <= k < |before| && k != i :: after[k] == before[k]
  }

  /** Another binding already has the target. */
  ghost predicate Taken(bindings: seq<Binding>, i: nat, target: string) {
    exists k :: 0 <= k < |bindings| && k != i && bindings[k].target == target
  }

  /** A rebinding moves the binding to the normalized path, or fails for the first reason that applies. */
  ghost predicate Rebound(before: seq<Binding>, id: string, path: string, after: seq<Binding>, result: Result) {
    && (result.Failed? ==> after == before)
    && (if !IsId(id) then result == Failed(InvalidIdentity)
        else if forall k | 0 <= k < |before| :: before[k].id != id then result == Failed(NotBound)
        else if Normalize(path).None? then result == Failed(InvalidPath)
        else exists i: nat :: FirstWithId(before, id, i) &&
               if Taken(before, i, Normalize(path).value) then result == Failed(OwnedTarget)
               else Moved(before, i, Normalize(path).value, after, result))
  }

  /** The target is the drawn candidate of one attempt, neither on disk nor owned, as all earlier candidates were. */
  ghost predicate DrawnTarget(bindings: seq<Binding>, disk: set<string>, d: Draw, target: string) {
    exists n: nat :: n < |d.stems| && target == "pipeline-" + d.stems[n] + "/pipeline-" + d.stems[n] + ".yaml"
      && Free(bindings, disk, target)
      && forall k | 0 <= k < n :: !Free(bindings, disk, Candidate(d.stems[k]))
  }

  predicate Free(bindings: seq<Binding>, disk: set<string>, target: string) {
    target !in disk && forall k | 0 <= k < |bindings| :: bindings[k].target != target
  }

  /** A relocation moves the binding to a drawn target, or fails for the first reason that applies. */
  ghost predicate Relocated(before: seq<Binding>, id: string, disk: set<string>, d: Draw, after: seq<Binding>,
                            result: Result) {
    && (result.Failed? ==> after == before)
    && (if !IsId(id) then result == Failed(InvalidIdentity)
        else if forall k | 0 <= k < |before| :: before[k].id != id then result == Failed(NotBound)
        else if forall n | 0 <= n < |d.stems| :: !Free(before, disk, Candidate(d.stems[n])) then result == Failed(NoTarget)
        else exists i: nat, target :: FirstWithId(before, id, i) && DrawnTarget(before, disk, d, target)
                                      && Moved(before, i, target, after, result))
  }

  lemma IndexOfFirst(bindings: seq<Binding>, id: string)
    ensures IndexOf(bindings, id) < |bindings| ==> FirstWithId(bindings, id, IndexOf(bindings, id))
  {
    if bindings != [] && bindings[0].id != id {
      IndexOfFirst(bindings[1..], id);
      var i := IndexOf(bindings, id);
      assert forall k | 0 < k < i :: bindings[k] == bindings[1..][k - 1];
    }
  }

  lemma RebindMeaning(bindings: seq<Binding>, id: string, path: string)
    ensures Rebound(bindings, id, path, Rebind(bindings, id, path).bindings, Rebind(bindings, id, path).result)
  {
    var i := IndexOf(bindings, id);
    IndexOfFirst(bindings, id);
    if i == |bindings| {
      assert forall k | 0 <= k < |bindings| :: bindings[k] in bindings;
    } else if Normalize(path).Some? {
      assert OwnedByOther(bindings, i, Normalize(path).value) <==> Taken(bindings, i, Normalize(path).value);
      assert FirstWithId(bindings, id, i);
    }
  }

  lemma FreeMeaning(bindings: seq<Binding>, disk: set<string>, target: string)
    ensures Free(bindings, disk, target) <==> target !in Unavailable(bindings, disk)
  {
    assert forall k | 0 <= k < |bindings| :: Targets(bindings)[k] == bindings[k].target;
  }

  /** The first attempt that is free. */
  lemma {:induction false} FirstFreeMeaning(unavailable: set<string>, stems: seq<string>)
    ensures FirstFree(unavailable, stems).Some? ==>
              exists n: nat :: n < |stems| && FirstFree(unavailable, stems).value == Candidate(stems[n])
                && Candidate(stems[n]) !in unavailable
                && forall k | 0 <= k < n :: Candidate(stems[k]) in unavailable
  {
    if stems != [] && Candidate(stems[0]) in unavailable {
      FirstFreeMeaning(unavailable, stems[1..]);
      if FirstFree(unavailable, stems).Some? {
        var n: nat :| n < |stems[1..]| && FirstFree(unavailable, stems).value == Candidate(stems[1..][n])
          && Candidate(stems[1..][n]) !in unavailable
          && forall k | 0 <= k < n :: Candidate(stems[1..][k]) in unavailable;
        assert forall k | 0 < k < n + 1 :: stems[k] == stems[1..][k - 1];
        assert stems[n + 1] == stems[1..][n];
      }
    }
  }

  lemma FreeIsDrawn(bindings: seq<Binding>, disk: set<string>, d: Draw)
    ensures var target := FirstFree(Unavailable(bindings, disk), d.stems);
            && (target.Some? ==> DrawnTarget(bindings, disk, d, target.value))
            && (target.None? <==> forall n | 0 <= n < |d.stems| :: !Free(bindings, disk, Candidate(d.stems[n])))
  {
    var unavailable, target := Unavailable(bindings, disk), FirstFree(Unavailable(bindings, disk), d.stems);
    forall t {
      FreeMeaning(bindings, disk, t);
    }
    FirstFreeMeaning(unavailable, d.stems);
    if target.Some? {
      var n: nat :| n < |d.stems| && target.value == Candidate(d.stems[n]) && Candidate(d.stems[n]) !in unavailable
        && forall k | 0 <= k < n :: Candidate(d.stems[k]) in unavailable;
      CandidateText(d.stems[n]);
      assert Free(bindings, disk, target.value);
    }
  }

  lemma CandidateText(random: string)
    ensures Candidate(random) == "pipeline-" + random + "/pipeline-" + random + ".yaml"
  {
    var stem := STEM + random;
    assert stem + ['/'] + (stem + YAML) == stem + "/" + STEM + random + YAML;
    assert stem + "/" + STEM == "pipeline-" + random + "/pipeline-";
  }

  /** Moving a binding to a free normal target succeeds. */
  lemma RebindToFree(bindings: seq<Binding>, id: string, disk: set<string>, target: string)
    requires IsId(id) && IndexOf(bindings, id) < |bindings| && Normal(target) && Free(bindings, disk, target)
    ensures FirstWithId(bindings, id, IndexOf(bindings, id))
    ensures Moved(bindings, IndexOf(bindings, id), target, Rebind(bindings, id, target).bindings,
                  Rebind(bindings, id, target).result)
  {
    IndexOfFirst(bindings, id);
  }

  lemma RelocateMeaning(bindings: seq<Binding>, id: string, disk: set<string>, d: Draw)
    requires forall n | 0 <= n < |d.stems| :: IsStem(d.stems[n])
    ensures var step := Relocate(bindings, id, disk, d);
            Relocated(bindings, id, disk, d, step.bindings, step.result)
  {
    var i, target := IndexOf(bindings, id), FirstFree(Unavailable(bindings, disk), d.stems);
    FreeIsDrawn(bindings, disk, d);
    if i == |bindings| {
      assert forall k | 0 <= k < |bindings| :: bindings[k] in bindings;
    } else if target.Some? && IsId(id) {
      FreeTarget(bindings, disk, d);
      FreeMeaning(bindings, disk, target.value);
      RebindToFree(bindings, id, disk, target.value);
    }
  }

  /** A recorded request gets its binding, an edited own target its owner, any other request a drawn target. */
  ghost predicate Reserved(before: seq<Binding>, r: Request, disk: set<string>, d: Draw, after: seq<Binding>,
                           result: Result) {
    var origin := if r.origin.Some? then Normalize(r.origin.value) else None;
    && (result.Failed? ==> after == before)
    && (if !IsId(r.sessionId) || !IsId(r.requestId) then result == Failed(InvalidIdentity)
        else if r.origin.Some? && origin.None? then result == Failed(InvalidPath)
        else if r.intent.Edit? && r.origin.None? then result == Failed(OriginRequired)
        else if r.intent.Create? && r.origin.Some? then result == Failed(OriginForbidden)
        else if exists b :: b in before && RecordedFor(b, r) then
          && after == before
          && exists b :: b in before && RecordedFor(b, r) &&
               result == if b.intent == r.intent && b.origin == origin then Ok(b) else Failed(ReusedRequest)
        else if !r.forceNew && exists b :: b in before && EditsOwn(b, r, origin) then
          after == before && exists b :: b in before && EditsOwn(b, r, origin) && result == Ok(b)
        else if forall n | 0 <= n < |d.stems| :: !Free(before, disk, Candidate(d.stems[n])) then result == Failed(NoTarget)
        else exists target :: DrawnTarget(before, disk, d, target)
               && result == Ok(Binding(d.id, r.sessionId, r.requestId, r.intent, origin, target))
               && after == before + [result.binding])
  }

  predicate RecordedFor(b: Binding, r: Request) {
    b.sessionId == r.sessionId && b.requestId == r.requestId
  }

  /** The session edits a target it already owns. */
  predicate EditsOwn(b: Binding, r: Request, origin: Option<string>) {
    r.intent.Edit? && b.sessionId == r.sessionId && origin == Some(b.target)
  }

  lemma ExistingMeaning(bindings: seq<Binding>, r: Request, origin: Option<string>)
    requires r.intent.Edit? ==> origin.Some?
    ensures var existing := Existing(bindings, r, origin);
            if exists b :: b in bindings && RecordedFor(b, r) then
              exists b :: b in bindings && RecordedFor(b, r) &&
                existing == Some(if b.intent == r.intent && b.origin == origin then Ok(b) else Failed(ReusedRequest))
            else if !r.forceNew && exists b :: b in bindings && EditsOwn(b, r, origin) then
              exists b :: b in bindings && EditsOwn(b, r, origin) && existing == Some(Ok(b))
            else existing.None?
  {
    var prior := FindRequest(bindings, r.sessionId, r.requestId);
    if prior.Some? {
      assert RecordedFor(prior.value, r);
    } else if origin.Some? {
      var owned := FindOwned(bindings, r.sessionId, origin.value);
      assert owned.Some? && r.intent.Edit? ==> EditsOwn(owned.value, r, origin);
    }
  }

  lemma ReserveMeaning(bindings: seq<Binding>, r: Request, disk: set<string>, d: Draw)
    ensures var step := Reserve(bindings, r, disk, d);
            Reserved(bindings, r, disk, d, step.bindings, step.result)
  {
    var checked := CheckRequest(r);
    if checked.Origin? {
      ExistingMeaning(bindings, r, checked.path);
      FreeIsDrawn(bindings, disk, d);
    }
  }

  // ----- The registry -----

  class BindingRegistry {
    /** The authenticated record as it was last written. */
    var record: seq<Binding>

    /** The record is one this program wrote. */
    ghost predicate Valid()
      reads this
    {
      Sound(record)
    }

    constructor ()
      ensures Valid() && record == []
    {
      record := [];
    }

    method ReserveChatPipelineBinding(r: Request, disk: set<string>, d: Draw) returns (result: Result)
      requires FreshDraw(record, d)
      modifies this
      ensures old(Valid()) ==> Step(record, result) == Reserve(old(record), r, disk, d)
      ensures old(Valid()) ==> Reserved(old(record), r, disk, d, record, result)
      ensures old(Valid()) ==> Valid()
      ensures result.Failed? ==> record == old(record)
    {
      ReserveMeaning(record, r, disk, d);
      if !IsId(r.sessionId) || !IsId(r.requestId) {
        return Failed(InvalidIdentity);
      }
      if r.origin.Some? && Normalize(r.origin.value).None? {
        return Failed(InvalidPath);
      }
      var origin := if r.origin.None? then None else Normalize(r.origin.value);
      if r.intent.Edit? && origin.None? {
        return Failed(OriginRequired);
      }
      if r.intent.Create? && origin.Some? {
        return Failed(OriginForbidden);
      }
      var bindings := ReadRegistry(record);
      if bindings.None? {
        return Failed(InvalidRegistry);
      }
      var existing := Existing(bindings.value, r, origin);
      if existing.Some? {
        return existing.value;
      }
      var target := ReserveTargetRelativePath(bindings.value, disk, d);
      if target.None? {
        return Failed(NoTarget);
      }
      var b := Binding(d.id, r.sessionId, r.requestId, r.intent, origin, target.value);
      record := bindings.value + [b];
      result := Ok(b);
      if old(Valid()) {
        ReserveSound(old(record), r, disk, d);
      }
    }

    method RebindChatPipelineBindingTarget(id: string, path: string) returns (result: Result)
      modifies this
      ensures old(Valid()) ==> Step(record, result) == Rebind(old(record), id, path)
      ensures old(Valid()) ==> Rebound(old(record), id, path, record, result)
      ensures old(Valid()) ==> Valid()
      ensures result.Failed? ==> record == old(record)
    {
      RebindMeaning(record, id, path);
      if !IsId(id) {
        return Failed(InvalidIdentity);
      }
      var bindings := ReadRegistry(record);
      if bindings.None? {
        return Failed(InvalidRegistry);
      }
      var index := IndexOf(bindings.value, id);
      if index == |bindings.value| {
        return Failed(NotBound);
      }
      var target := Normalize(path);
      if target.None? {
        return Failed(InvalidPath);
      }
      if OwnedByOther(bindings.value, index, target.value) {
        return Failed(OwnedTarget);
      }
      var rebound := bindings.value[index].(target := target.value);
      record := bindings.value[index := rebound];
      result := Ok(rebound);
      if old(Valid()) {
        RebindSound(old(record), id, path);
      }
    }

    method RelocateChatPipelineBindingTarget(id: string, disk: set<string>, d: Draw) returns (result: Result)
      requires |d.stems| == ATTEMPTS && forall n | 0 <= n < |d.stems| :: IsStem(d.stems[n])
      modifies this
      ensures old(Valid()) ==> Step(record, result) == Relocate(old(record), id, disk, d)
      ensures old(Valid()) ==> Relocated(old(record), id, disk, d, record, result)
      ensures old(Valid()) ==> Valid()
      ensures result.Failed? ==> record == old(record)
    {
      RelocateMeaning(record, id, disk, d);
      if !IsId(id) {
        return Failed(InvalidIdentity);
      }
      var bindings := ReadRegistry(record);
      if bindings.None? {
        return Failed(InvalidRegistry);
      }
      if IndexOf(bindings.value, id) == |bindings.value| {
        return Failed(NotBound);
      }
      var target := ReserveTargetRelativePath(bindings.value, disk, d);
      if target.None? {
        return Failed(NoTarget);
      }
      result := RebindChatPipelineBindingTarget(id, target.value);
    }
  }

  // ----- Every operation keeps the registry sound -----

  lemma SoundAppend(bindings: seq<Binding>, b: Binding)
    requires Sound(bindings) && WellFormed(b)
    requires b.id !in Ids(bindings) && RequestKey(b.sessionId, b.requestId) !in Keys(bindings) && b.target !in Targets(bindings)
    ensures Sound(bindings + [b])
  {
    var more := bindings + [b];
    assert Ids(more) == Ids(bindings) + [b.id];
    assert Keys(more) == Keys(bindings) + [RequestKey(b.sessionId, b.requestId)];
    assert Targets(more) == Targets(bindings) + [b.target];
  }

  lemma SoundRetarget(bindings: seq<Binding>, i: nat, target: string)
    requires Sound(bindings) && i < |bindings| && Normal(target) && !OwnedByOther(bindings, i, target)
    ensures Sound(bindings[i := bindings[i].(target := target)])
  {
    var more := bindings[i := bindings[i].(target := target)];
    assert Ids(more) == Ids(bindings) && Keys(more) == Keys(bindings);
    forall j, k | 0 <= j < k < |more|
      ensures Targets(more)[j] != Targets(more)[k]
    {
      assert Targets(bindings)[j] != Targets(bindings)[k];
    }
  }

  /** A request that is not found has no key in the registry. */
  lemma KeyUnused(bindings: seq<Binding>, sessionId: string, requestId: string)
    requires Sound(bindings) && IsId(sessionId) && IsId(requestId)
    requires FindRequest(bindings, sessionId, requestId).None?
    ensures RequestKey(sessionId, requestId) !in Keys(bindings)
  {
    forall i | 0 <= i < |bindings|
      ensures Keys(bindings)[i] != RequestKey(sessionId, requestId)
    {
      assert WellFormed(bindings[i]);
      RequestKeyInjective(bindings[i].sessionId, bindings[i].requestId, sessionId, requestId);
    }
  }

  lemma FreeTarget(bindings: seq<Binding>, disk: set<string>, d: Draw)
    requires forall i | 0 <= i < |d.stems| :: IsStem(d.stems[i])
    ensures var target := FirstFree(Unavailable(bindings, disk), d.stems);
            target.Some? ==> Normal(target.value) && target.value !in disk && target.value !in Targets(bindings)
  {
    var target := FirstFree(Unavailable(bindings, disk), d.stems);
    if target.Some? {
      var i :| 0 <= i < |d.stems| && target.value == Candidate(d.stems[i]);
      CandidateIsNormal(d.stems[i]);
    }
  }

  lemma ReserveSound(bindings: seq<Binding>, r: Request, disk: set<string>, d: Draw)
    requires Sound(bindings) && FreshDraw(bindings, d)
    ensures Sound(Reserve(bindings, r, disk, d).bindings)
  {
    var step := Reserve(bindings, r, disk, d);
    if step.bindings != bindings {
      FreeTarget(bindings, disk, d);
      KeyUnused(bindings, r.sessionId, r.requestId);
      if r.origin.Some? {
        NormalizeTwice(r.origin.value);
      }
      SoundAppend(bindings, step.result.binding);
    }
  }

  lemma RebindSound(bindings: seq<Binding>, id: string, path: string)
    requires Sound(bindings)
    ensures Sound(Rebind(bindings, id, path).bindings)
  {
    var index, target := IndexOf(bindings, id), Normalize(path);
    if index < |bindings| && target.Some? && !OwnedByOther(bindings, index, target.value) {
      NormalizeTwice(path);
      SoundRetarget(bindings, index, target.value);
    }
  }

  datatype Op =
    | ReserveOp(request: Request, disk: set<string>, d: Draw)
    | RebindOp(id: string, path: string)
    | RelocateOp(boundId: string, files: set<string>, draw: Draw)

  function Apply(bindings: seq<Binding>, op: Op): Step {
    match op
    case ReserveOp(r, disk, d) => Reserve(bindings, r, disk, d)
    case RebindOp(id, path) => Rebind(bindings, id, path)
    case RelocateOp(id, disk, d) => Relocate(bindings, id, disk, d)
  }

  /** Random ids are fresh when they are drawn. */
  ghost predicate Drawn(bindings: seq<Binding>, op: Op) {
    match op
    case ReserveOp(_, _, d) => FreshDraw(bindings, d)
    case RebindOp(_, _) => true
    case RelocateOp(_, _, d) => FreshDraw(bindings, d)
  }

  lemma ApplySound(bindings: seq<Binding>, op: Op)
    requires Sound(bindings) && Drawn(bindings, op)
    ensures Sound(Apply(bindings, op).bindings)
  {
    match op {
      case ReserveOp(r, disk, d) => ReserveSound(bindings, r, disk, d);
      case RebindOp(id, path) => RebindSound(bindings, id, path);
      case RelocateOp(id, disk, d) =>
        var target := FirstFree(Unavailable(bindings, disk), d.stems);
        if target.Some? {
          RebindSound(bindings, id, target.value);
        }
    }
  }

  ghost predicate Run(states: seq<seq<Binding>>, ops: seq<Op>) {
    && |states| == |ops| + 1
    && forall i | 0 <= i < |ops| :: Drawn(states[i], ops[i]) && states[i + 1] == Apply(states[i], ops[i]).bindings
  }

  /** From an empty registry, no run makes a record that a later read would reject. */
  lemma {:induction false} RunKeepsRegistry(states: seq<seq<Binding>>, ops: seq<Op>, i: nat)
    requires Run(states, ops) && states[0] == [] && i <= |ops|
    ensures Sound(states[i])
  {
    if i == 0 {
      assert Ids([]) == [] && Keys([]) == [] && Targets([]) == [];
    } else {
      RunKeepsRegistry(states, ops, i - 1);
      ApplySound(states[i - 1], ops[i - 1]);
    }
  }

  /** In a sound registry, sessions share origins at most: no two bindings write the same target. */
  lemma TargetsExclusive(bindings: seq<Binding>, i: nat, j: nat)
    requires Sound(bindings) && i < |bindings| && j < |bindings|
    ensures bindings[i].target == bindings[j].target ==> i == j
    ensures bindings[i].id == bindings[j].id ==> i == j
    ensures bindings[i].sessionId == bindings[j].sessionId && bindings[i].requestId == bindings[j].requestId ==> i == j
  {
    var a, b := if i < j then i else j, if i < j then j else i;
    if i != j {
      assert Targets(bindings)[a] != Targets(bindings)[b];
      assert Ids(bindings)[a] != Ids(bindings)[b];
      assert Keys(bindings)[a] != Keys(bindings)[b];
    }
  }

  /** What a successful reservation gives: a binding of that session, in the registry, alone on its target. */
  lemma ReservedBinding(bindings: seq<Binding>, r: Request, disk: set<string>, d: Draw)
    requires Sound(bindings) && FreshDraw(bindings, d) && Reserve(bindings, r, disk, d).result.Ok?
    ensures var step := Reserve(bindings, r, disk, d);
            var b := step.result.binding;
            && b.sessionId == r.sessionId && b in step.bindings
            && (b !in bindings ==> step.bindings == bindings + [b] && b.target !in disk && b.target !in Targets(bindings)
                                   && b.requestId == r.requestId && b.intent == r.intent)
            && (b in bindings ==> step.bindings == bindings)
  {
    var step := Reserve(bindings, r, disk, d);
    FreeTarget(bindings, disk, d);
    if step.bindings != bindings {
      assert forall b | b in bindings :: b.id in Ids(bindings) by {
        forall b | b in bindings
          ensures b.id in Ids(bindings)
        {
          var i :| 0 <= i < |bindings| && bindings[i] == b;
          assert Ids(bindings)[i] == b.id;
        }
      }
    }
  }

  // ----- Repeating a reservation -----

  /** Targets are exclusive, so the owned binding stays the same as the registry grows. */
  lemma FindOwnedPrefix(bindings: seq<Binding>, more: seq<Binding>, sessionId: string, target: string)
    requires bindings <= more && Sound(more) && FindOwned(bindings, sessionId, target).Some?
    ensures FindOwned(more, sessionId, target) == FindOwned(bindings, sessionId, target)
  {
    var b := FindOwned(bindings, sessionId, target).value;
    var i :| 0 <= i < |bindings| && bindings[i] == b;
    assert more[i] == b;
    var c := FindOwned(more, sessionId, target).value;
    var j :| 0 <= j < |more| && more[j] == c;
    TargetsExclusive(more, i, j);
  }

  ghost predicate HasKey(b: Binding, r: Request) {
    b.sessionId == r.sessionId && b.requestId == r.requestId
  }

  /** A new or remembered binding of a request is what the grown registry still finds for it. */
  lemma KeyRemembered(more: seq<Binding>, r: Request, b: Binding)
    requires Sound(more) && b in more && HasKey(b, r)
    ensures FindRequest(more, r.sessionId, r.requestId) == Some(b)
  {
    var found := FindRequest(more, r.sessionId, r.requestId).value;
    var i :| 0 <= i < |more| && more[i] == b;
    var j :| 0 <= j < |more| && more[j] == found;
    TargetsExclusive(more, i, j);
  }

  lemma RepeatRecorded(later: seq<Binding>, r: Request, b: Binding, disk: set<string>, d: Draw)
    requires Sound(later) && b in later && HasKey(b, r)
    requires CheckRequest(r) == Origin(b.origin) && b.intent == r.intent
    ensures Reserve(later, r, disk, d) == Step(later, Ok(b))
  {
    KeyRemembered(later, r, b);
  }

  lemma ReserveExisting(bindings: seq<Binding>, r: Request, disk: set<string>, d: Draw)
    requires CheckRequest(r).Origin? && Existing(bindings, r, CheckRequest(r).path).Some?
    ensures Reserve(bindings, r, disk, d) == Step(bindings, Existing(bindings, r, CheckRequest(r).path).value)
  {
  }

  /** How a request without a recorded binding gets an owned one. */
  ghost predicate Owns(bindings: seq<Binding>, r: Request, origin: Option<string>, b: Binding) {
    && FindRequest(bindings, r.sessionId, r.requestId).None?
    && !r.forceNew && r.intent.Edit? && origin.Some? && FindOwned(bindings, r.sessionId, origin.value) == Some(b)
  }

  lemma OwnedExists(first: seq<Binding>, later: seq<Binding>, r: Request, origin: Option<string>, b: Binding)
    requires Sound(later) && first <= later && Owns(first, r, origin, b)
    ensures FindRequest(later, r.sessionId, r.requestId).None? ==> Existing(later, r, origin) == Some(Ok(b))
    ensures FindRequest(later, r.sessionId, r.requestId).Some? ==>
              Existing(later, r, origin).Some? && Existing(later, r, origin) != Some(Ok(b))
  {
    FindOwnedPrefix(first, later, r.sessionId, origin.value);
    assert b in first && !HasKey(b, r);
  }

  lemma RepeatOwned(first: seq<Binding>, r: Request, b: Binding, later: seq<Binding>, disk: set<string>, d: Draw)
    requires Sound(later) && first <= later && CheckRequest(r).Origin? && Owns(first, r, CheckRequest(r).path, b)
    ensures Reserve(later, r, disk, d) == Step(later, Ok(b)) <==> FindRequest(later, r.sessionId, r.requestId).None?
  {
    OwnedExists(first, later, r, CheckRequest(r).path, b);
    ReserveExisting(later, r, disk, d);
  }

  lemma UnrecordedIsOwned(first: seq<Binding>, r: Request, disk: set<string>, d: Draw)
    requires Sound(first) && FreshDraw(first, d) && Reserve(first, r, disk, d).result.Ok?
    requires !HasKey(Reserve(first, r, disk, d).result.binding, r)
    ensures CheckRequest(r).Origin? && Owns(first, r, CheckRequest(r).path, Reserve(first, r, disk, d).result.binding)
  {
  }

  /**
   * Repeating a reservation after others gives the same binding and leaves the registry as it is exactly if the
   * binding carries the request's own identity, or no binding with that identity has been made since. The second
   * case is a session that edits a target it already owns: such a request is not recorded.
   */
  lemma RepeatedReserve(first: seq<Binding>, r: Request, disk: set<string>, d: Draw, later: seq<Binding>,
                        disk': set<string>, d': Draw)
    requires Sound(first) && FreshDraw(first, d) && Reserve(first, r, disk, d).result.Ok?
    requires Reserve(first, r, disk, d).bindings <= later && Sound(later)
    ensures var b := Reserve(first, r, disk, d).result.binding;
            Reserve(later, r, disk', d') == Step(later, Ok(b)) <==>
              HasKey(b, r) || FindRequest(later, r.sessionId, r.requestId).None?
  {
    var b := Reserve(first, r, disk, d).result.binding;
    ReservedBinding(first, r, disk, d);
    if HasKey(b, r) {
      RepeatRecorded(later, r, b, disk', d');
    } else {
      UnrecordedIsOwned(first, r, disk, d);
      RepeatOwned(first, r, b, later, disk', d');
    }
  }

  /** Forcing a new binding under the same identity takes a request over that had been given an owned target. */
  lemma ForcedRequestTakesOver(first: seq<Binding>, r: Request, disk: set<string>, d: Draw, disk': set<string>, d': Draw)
    requires Sound(first) && FreshDraw(first, d)
    requires Reserve(first, r, disk, d).result.Ok? && !HasKey(Reserve(first, r, disk, d).result.binding, r)
    requires Reserve(first, r.(forceNew := true), disk, d).result.Ok?
    ensures var forced := Reserve(first, r.(forceNew := true), disk, d);
            && Reserve(forced.bindings, r, disk', d') == Step(forced.bindings, forced.result)
            && forced.result != Reserve(first, r, disk, d).result
  {
    var again := r.(forceNew := true);
    var forced := Reserve(first, again, disk, d);
    ReserveSound(first, again, disk, d);
    ReservedBinding(first, r, disk, d);
    ReservedBinding(first, again, disk, d);
    RepeatRecorded(forced.bindings, r, forced.result.binding, disk', d');
  }

  /** Reservations only ever add bindings. */
  lemma {:induction false} ReservesAdd(states: seq<seq<Binding>>, ops: seq<Op>, i: nat, j: nat)
    requires Run(states, ops) && i <= j <= |ops| && forall k | i <= k < j :: ops[k].ReserveOp?
    ensures states[i] <= states[j]
  {
    if i < j {
      ReservesAdd(states, ops, i, j - 1);
      assert ops[j - 1].ReserveOp?;
    }
  }

  /** In a run: after any further reservations, a recorded request still gets its binding. */
  lemma RecordedRequestStable(states: seq<seq<Binding>>, ops: seq<Op>, i: nat, j: nat, disk: set<string>, d: Draw)
    requires Run(states, ops) && states[0] == [] && i < j <= |ops|
    requires forall k | i <= k < j :: ops[k].ReserveOp?
    requires Apply(states[i], ops[i]).result.Ok? && HasKey(Apply(states[i], ops[i]).result.binding, ops[i].request)
    ensures Reserve(states[j], ops[i].request, disk, d) == Step(states[j], Apply(states[i], ops[i]).result)
  {
    RunKeepsRegistry(states, ops, i);
    RunKeepsRegistry(states, ops, j);
    ReservesAdd(states, ops, i + 1, j);
    RepeatedReserve(states[i], ops[i].request, ops[i].disk, ops[i].d, states[j], disk, d);
  }

  /** The same binding, possibly on another target. */
  ghost predicate SameOwner(a: Binding, b: Binding) {
    a == b.(target := a.target)
  }

  lemma RebindGrows(bindings: seq<Binding>, id: string, path: string)
    ensures var next := Rebind(bindings, id, path).bindings;
            |next| == |bindings| && forall i | 0 <= i < |bindings| :: SameOwner(next[i], bindings[i])
  {
  }

  /** Every binding keeps its place and everything but its target. */
  lemma ApplyGrows(bindings: seq<Binding>, op: Op)
    ensures var next := Apply(bindings, op).bindings;
            |next| >= |bindings| && forall i | 0 <= i < |bindings| :: SameOwner(next[i], bindings[i])
  {
    match op {
      case ReserveOp(_, _, _) =>
      case RebindOp(id, path) => RebindGrows(bindings, id, path);
      case RelocateOp(id, disk, d) =>
        var target := FirstFree(Unavailable(bindings, disk), d.stems);
        if target.Some? {
          RebindGrows(bindings, id, target.value);
        }
    }
  }

  /** The operation successfully moves the binding with this id. */
  ghost predicate Moves(bindings: seq<Binding>, op: Op, id: string) {
    !op.ReserveOp? && Apply(bindings, op).result.Ok? && Apply(bindings, op).result.binding.id == id
  }

  lemma RetargetAt(bindings: seq<Binding>, id: string, path: string, i: nat)
    requires Sound(bindings) && i < |bindings|
    ensures var step := Rebind(bindings, id, path);
            step.bindings[i].target == if step.result.Ok? && step.result.binding.id == bindings[i].id
                                       then step.result.binding.target else bindings[i].target
  {
    var index := IndexOf(bindings, id);
    if index < |bindings| && index != i {
      TargetsExclusive(bindings, index, i);
    }
  }

  /** One operation gives a binding the target it moves it to, and otherwise leaves its target alone. */
  lemma ApplyTargets(bindings: seq<Binding>, op: Op, i: nat)
    requires Sound(bindings) && i < |bindings|
    ensures var step := Apply(bindings, op);
            && i < |step.bindings| && SameOwner(step.bindings[i], bindings[i])
            && step.bindings[i].target == if Moves(bindings, op, bindings[i].id) then step.result.binding.target
                                          else bindings[i].target
  {
    ApplyGrows(bindings, op);
    match op {
      case ReserveOp(_, _, _) =>
      case RebindOp(id, path) => RetargetAt(bindings, id, path, i);
      case RelocateOp(id, disk, d) =>
        var target := FirstFree(Unavailable(bindings, disk), d.stems);
        if target.Some? {
          RetargetAt(bindings, id, target.value, i);
        }
    }
  }

  /** Where each operation moves the binding with this id. */
  ghost function MovesOf(states: seq<seq<Binding>>, ops: seq<Op>, id: string): (moves: seq<Option<string>>)
    requires |ops| < |states|
    ensures |moves| == |ops|
    ensures forall k | 0 <= k < |ops| ::
              moves[k] == if Moves(states[k], ops[k], id) then Some(Apply(states[k], ops[k]).result.binding.target)
                          else None
  {
    seq(|ops|, k requires 0 <= k < |ops| =>
      if Moves(states[k], ops[k], id) then Some(Apply(states[k], ops[k]).result.binding.target) else None)
  }

  ghost predicate NoMove(moves: seq<Option<string>>, from: nat, to: nat)
    requires to <= |moves|
  {
    forall k | from <= k < to :: moves[k].None?
  }

  /** The same owner, on the target of its last move between two states, or where it was. */
  ghost predicate Followed(moves: seq<Option<string>>, i: nat, j: nat, b: Binding, c: Binding)
    requires i <= j <= |moves|
  {
    && SameOwner(c, b)
    && (NoMove(moves, i, j) ==> c.target == b.target)
    && forall k | i <= k < j && moves[k].Some? && NoMove(moves, k + 1, j) :: Some(c.target) == moves[k]
  }

  lemma FollowedStep(moves: seq<Option<string>>, i: nat, j: nat, next: nat, b: Binding, c: Binding, e: Binding)
    requires i <= j && next == j + 1 <= |moves| && Followed(moves, i, j, b, c) && SameOwner(e, c)
    requires e.target == if moves[j].Some? then moves[j].value else c.target
    ensures Followed(moves, i, next, b, e)
  {
    forall k | i <= k < next && moves[k].Some? && NoMove(moves, k + 1, next)
      ensures Some(e.target) == moves[k]
    {
      if k < j {
        assert NoMove(moves, k + 1, j);
      }
    }
    if NoMove(moves, i, next) {
      assert NoMove(moves, i, j);
    }
  }

  lemma {:induction false} RunFollows(states: seq<seq<Binding>>, ops: seq<Op>, i: nat, j: nat, x: nat)
    requires Run(states, ops) && states[0] == [] && i <= j <= |ops| && x < |states[i]|
    ensures x < |states[j]| && Followed(MovesOf(states, ops, states[i][x].id), i, j, states[i][x], states[j][x])
    decreases j
  {
    if i < j {
      var last := j - 1;
      RunFollows(states, ops, i, last, x);
      RunKeepsRegistry(states, ops, last);
      ApplyTargets(states[last], ops[last], x);
      FollowedStep(MovesOf(states, ops, states[i][x].id), i, last, j, states[i][x], states[last][x], states[j][x]);
    }
  }

  /**
   * After rebinding and relocating too, a recorded request gets its own binding, on the target of the last operation
   * that moved it.
   */
  lemma RecordedRequestFollowed(states: seq<seq<Binding>>, ops: seq<Op>, i: nat, j: nat, disk: set<string>, d: Draw)
    returns (c: Binding)
    requires Run(states, ops) && states[0] == [] && i < j <= |ops| && ops[i].ReserveOp?
    requires Apply(states[i], ops[i]).result.Ok? && HasKey(Apply(states[i], ops[i]).result.binding, ops[i].request)
    ensures var b := Apply(states[i], ops[i]).result.binding;
            Followed(MovesOf(states, ops, b.id), i + 1, j, b, c)
    ensures Reserve(states[j], ops[i].request, disk, d) == Step(states[j], Ok(c))
  {
    var r, b := ops[i].request, Apply(states[i], ops[i]).result.binding;
    RunKeepsRegistry(states, ops, i);
    RunKeepsRegistry(states, ops, j);
    ReservedBinding(states[i], r, ops[i].disk, ops[i].d);
    assert b in states[i + 1];
    c := BindingFollowed(states, ops, i + 1, j, b);
    assert CheckRequest(r) == Origin(b.origin) && b.intent == r.intent;
    RepeatRecorded(states[j], r, c, disk, d);
  }

  lemma BindingFollowed(states: seq<seq<Binding>>, ops: seq<Op>, i: nat, j: nat, b: Binding) returns (c: Binding)
    requires Run(states, ops) && states[0] == [] && i <= j <= |ops| && b in states[i]
    ensures c in states[j] && Followed(MovesOf(states, ops, b.id), i, j, b, c)
  {
    var x :| 0 <= x < |states[i]| && states[i][x] == b;
    RunFollows(states, ops, i, j, x);
    c := states[j][x];
  }
}
