/** The worker's manifest cache: over any sequence of requests, a cached capture is a cold capture. */
module WitnessCache {
  import opened Common
  import opened Ordering
  import opened ManifestEncoding
  import opened WitnessScan

  // ----- The assumption behind the cache -----

  /** The content a path had, under a root, whenever it had given metadata. */
  datatype World = World(file: (string, string, Metadata) -> string, link: (string, string, Metadata) -> string)

  /** Every item of a tree has the content its path and metadata promise. */
  ghost predicate TreeOf(w: World, root: string, path: string, node: Node)
    decreases node
  {
    match node
    case FileNode(meta, content, _) => content == w.file(root, path, meta)
    case LinkNode(meta, raw, _, _) => raw == w.link(root, path, meta)
    case DirNode(entries, _) => forall name | name in entries :: TreeOf(w, root, JoinPath(path, name), entries[name])
    case OtherNode => true
  }

  /** Every cached digest is the digest of the promised content. */
  ghost predicate EntriesOf(w: World, sha256: string -> string, root: string, entries: Manifest) {
    forall path | path in entries :: EntryOf(w, sha256, root, path, entries[path])
  }

  ghost predicate EntryOf(w: World, sha256: string -> string, root: string, path: string, entry: CacheEntry) {
    match entry
    case CachedFile(meta, digest) => digest == sha256(w.file(root, path, meta))
    case CachedLink(meta, size, digest) => size == |w.link(root, path, meta)| && digest == sha256(w.link(root, path, meta))
  }

  function Cold(c: Context): Context {
    c.(previous := map[])
  }

  // ----- Reused files that could not have been read -----

  /** No file taken from the cache changes while it would have been read. */
  ghost predicate ReusedReadable(c: Context, path: string, node: Node)
    decreases node
  {
    match node
    case FileNode(meta, _, stable) => ReusesFile(c, path, meta) ==> stable
    case DirNode(entries, _) =>
      c.excluded(path) || forall name | name in c.listing(path) && name in entries ::
        ReusedReadable(c, JoinPath(path, name), entries[name])
    case _ => true
  }

  /** A warm scan against a cold one. */
  ghost predicate Matches(warm: Option<Scanned>, cold: Option<Scanned>, readable: bool) {
    && (cold.Some? <==> warm.Some? && readable)
    && (cold.Some? ==> warm.value.records == cold.value.records && warm.value.entries == cold.value.entries)
  }

  ghost predicate Good(w: World, c: Context, root: string, s: Option<Scanned>) {
    s.Some? ==> EntriesOf(w, c.sha256, root, s.value.entries)
                && s.value.hashed + s.value.reused == FileCount(s.value.records)
  }

  lemma GoodThen(w: World, c: Context, root: string, a: Option<Scanned>, b: Option<Scanned>)
    requires Good(w, c, root, a) && Good(w, c, root, b)
    ensures Good(w, c, root, Then(a, b))
  {
    if a.Some? && b.Some? {
      CountAppend(a.value.records, b.value.records);
    }
  }

  lemma MatchesThen(warmA: Option<Scanned>, coldA: Option<Scanned>, readableA: bool,
                    warmB: Option<Scanned>, coldB: Option<Scanned>, readableB: bool)
    requires Matches(warmA, coldA, readableA) && Matches(warmB, coldB, readableB)
    ensures Matches(Then(warmA, warmB), Then(coldA, coldB), readableA && readableB)
  {
  }

  lemma FileMatches(w: World, c: Context, root: string, path: string, node: Node)
    requires node.FileNode? && TreeOf(w, root, path, node) && EntriesOf(w, c.sha256, root, c.previous)
    ensures Matches(ScanFile(c, path, node), ScanFile(Cold(c), path, node), ReusedReadable(c, path, node))
    ensures Good(w, c, root, ScanFile(c, path, node))
  {
    if ScanFile(c, path, node).Some? {
      SingleCount(ScanFile(c, path, node).value.records);
    }
  }

  lemma SingleCount(records: seq<Record>)
    requires |records| == 1
    ensures FileCount(records) == if IsFileRecord(records[0]) then 1 else 0
  {
    assert records[1..] == [];
  }

  lemma LinkMatches(w: World, c: Context, root: string, path: string, node: Node, allowed: bool)
    requires node.LinkNode? && TreeOf(w, root, path, node) && EntriesOf(w, c.sha256, root, c.previous)
    requires allowed ==> node.target.Some?
    ensures Matches(ScanLink(c, path, node, allowed), ScanLink(Cold(c), path, node, allowed), true)
    ensures Good(w, c, root, ScanLink(c, path, node, allowed))
  {
    if ScanLink(c, path, node, allowed).Some? {
      SingleCount(ScanLink(c, path, node, allowed).value.records);
    }
  }

  lemma {:induction false} EntryMatches(w: World, c: Context, root: string, path: string, node: Node)
    requires TreeOf(w, root, path, node) && EntriesOf(w, c.sha256, root, c.previous)
    ensures Matches(ScanEntry(c, path, node), ScanEntry(Cold(c), path, node), ReusedReadable(c, path, node))
    ensures Good(w, c, root, ScanEntry(c, path, node))
    decreases node, 1, 0
  {
    match node {
      case LinkNode(_, _, target, _) => LinkMatches(w, c, root, path, node, LinkAllowed(c, target));
      case FileNode(_, _, _) => FileMatches(w, c, root, path, node);
      case OtherNode =>
      case DirNode(_, _) =>
        if !c.excluded(path) {
          DirectoryMatches(w, c, root, path, node);
          var only := Some(Nothing.(records := [DirRecord(path)]));
          SingleCount([DirRecord(path)]);
          GoodThen(w, c, root, only, ScanDirectory(c, path, node));
        }
    }
  }

  lemma {:induction false} DirectoryMatches(w: World, c: Context, root: string, path: string, dir: Node)
    requires dir.DirNode? && TreeOf(w, root, path, dir) && EntriesOf(w, c.sha256, root, c.previous)
    requires !c.excluded(path)
    ensures Matches(ScanDirectory(c, path, dir), ScanDirectory(Cold(c), path, dir), ReusedReadable(c, path, dir))
    ensures Good(w, c, root, ScanDirectory(c, path, dir))
    decreases dir, 0, |c.listing(path)| + 1
  {
    SortPermutes(c.listing(path), StringLeq);
    NamesMatch(w, c, root, path, dir, SortStrings(c.listing(path)));
  }

  ghost predicate NamesReadable(c: Context, path: string, dir: Node, names: seq<string>)
    requires dir.DirNode?
  {
    forall name | name in names && name in dir.entries :: ReusedReadable(c, JoinPath(path, name), dir.entries[name])
  }

  lemma {:induction false} NamesMatch(w: World, c: Context, root: string, path: string, dir: Node, names: seq<string>)
    requires dir.DirNode? && TreeOf(w, root, path, dir) && EntriesOf(w, c.sha256, root, c.previous)
    ensures Matches(ScanNames(c, path, dir, names), ScanNames(Cold(c), path, dir, names), NamesReadable(c, path, dir, names))
    ensures Good(w, c, root, ScanNames(c, path, dir, names))
    decreases dir, 0, |names|
  {
    if names != [] && names[0] in dir.entries {
      var child, node := JoinPath(path, names[0]), dir.entries[names[0]];
      EntryMatches(w, c, root, child, node);
      NamesMatch(w, c, root, path, dir, names[1..]);
      MatchesThen(ScanEntry(c, child, node), ScanEntry(Cold(c), child, node), ReusedReadable(c, child, node),
                  ScanNames(c, path, dir, names[1..]), ScanNames(Cold(c), path, dir, names[1..]),
                  NamesReadable(c, path, dir, names[1..]));
      GoodThen(w, c, root, ScanEntry(c, child, node), ScanNames(c, path, dir, names[1..]));
      assert forall name :: name in names <==> name == names[0] || name in names[1..];
    }
  }

  // ----- Git source paths -----

  ghost predicate GitTreeOf(w: World, root: string, found: map<string, GitNode>) {
    forall path | path in found :: TreeOf(w, root, path, found[path].node)
  }

  ghost predicate GitReadable(c: Context, paths: seq<string>, found: map<string, GitNode>) {
    forall path | path in paths && path in found && found[path].node.FileNode? :: ReusedReadable(c, path, found[path].node)
  }

  lemma {:induction false} GitMatches(w: World, c: Context, root: string, all: seq<string>, paths: seq<string>,
                                      found: map<string, GitNode>)
    requires GitTreeOf(w, root, found) && EntriesOf(w, c.sha256, root, c.previous)
    ensures Matches(ScanGit(c, all, paths, found), ScanGit(Cold(c), all, paths, found), GitReadable(c, paths, found))
    ensures Good(w, c, root, ScanGit(c, all, paths, found))
  {
    if paths != [] {
      GitPathMatches(w, c, root, all, paths[0], found);
      GitMatches(w, c, root, all, paths[1..], found);
      MatchesThen(ScanGitPath(c, all, paths[0], found), ScanGitPath(Cold(c), all, paths[0], found),
                  GitReadable(c, [paths[0]], found),
                  ScanGit(c, all, paths[1..], found), ScanGit(Cold(c), all, paths[1..], found),
                  GitReadable(c, paths[1..], found));
      GoodThen(w, c, root, ScanGitPath(c, all, paths[0], found), ScanGit(c, all, paths[1..], found));
      assert forall path :: path in paths <==> path in [paths[0]] || path in paths[1..];
    }
  }

  lemma GitPathMatches(w: World, c: Context, root: string, all: seq<string>, path: string, found: map<string, GitNode>)
    requires GitTreeOf(w, root, found) && EntriesOf(w, c.sha256, root, c.previous)
    ensures Matches(ScanGitPath(c, all, path, found), ScanGitPath(Cold(c), all, path, found), GitReadable(c, [path], found))
    ensures Good(w, c, root, ScanGitPath(c, all, path, found))
  {
    if path !in found {
      SingleCount([MissingRecord(path)]);
    } else {
      match found[path].node {
        case LinkNode(_, _, target, _) =>
          LinkMatches(w, c, root, path, found[path].node, LinkAllowed(c, target) && TargetInScope(all, target.value));
        case FileNode(_, _, _) => FileMatches(w, c, root, path, found[path].node);
        case _ =>
      }
    }
  }

  // ----- Requests -----

  datatype Source =
    | PlainSource(dir: Node, listing: string -> seq<string>)
    | GitSource(controlDigest: string, controlStable: bool, paths: seq<string>, found: map<string, GitNode>)
    | RefusedSource

  /** The workspace root a caller names and the canonical path it resolves to at that moment. */
  datatype Request = Request(workspaceRoot: string, resolvedRoot: string, source: Source)

  datatype Cache = Cache(root: string, entries: Manifest)

  datatype Host = Host(excluded: string -> bool, sha256: string -> string)

  datatype WorkerState = WorkerState(workspaceRoot: Option<string>, cache: Option<Cache>)

  const FreshWorker := WorkerState(None, None)

  datatype Response = Response(digest: string, fileCount: nat, totalBytes: nat, hashed: nat, reused: nat)

  /** manifestCacheEntries: the cache of another root is not used. */
  function Previous(cache: Option<Cache>, resolvedRoot: string): Manifest {
    if cache.Some? && cache.value.root == resolvedRoot then cache.value.entries else map[]
  }

  function ContextOf(host: Host, source: Source, previous: Manifest): Context {
    Context(host.excluded, host.sha256, if source.PlainSource? then source.listing else path => [], previous)
  }

  predicate WellFormedSource(source: Source) {
    source.PlainSource? ==> source.dir.DirNode?
  }

  function Scan(c: Context, source: Source): Option<Scanned>
    requires WellFormedSource(source)
  {
    match source
    case PlainSource(dir, _) => ScanDirectory(c, "", dir)
    case GitSource(_, controlStable, paths, found) => if controlStable then ScanGit(c, paths, paths, found) else None
    case RefusedSource => None
  }

  function StreamOf(source: Source, records: seq<Record>): Stream {
    Stream(if source.GitSource? then Some(source.controlDigest) else None, records)
  }

  function Respond(host: Host, source: Source, s: Scanned): Response {
    Response(host.sha256(Encode(StreamOf(source, s.records))), FileCount(s.records), TotalBytes(s.records), s.hashed, s.reused)
  }

  /** The cache a request starts from: switching roots drops it. */
  function StartingCache(state: WorkerState, request: Request): Option<Cache> {
    if state.workspaceRoot == Some(request.workspaceRoot) then state.cache else None
  }

  function Captured(host: Host, state: WorkerState, request: Request): Option<Scanned>
    requires WellFormedSource(request.source)
  {
    Scan(ContextOf(host, request.source, Previous(StartingCache(state, request), request.resolvedRoot)), request.source)
  }

  /** A failed request forgets the cache; a successful one replaces it. */
  function NextState(host: Host, state: WorkerState, request: Request): WorkerState
    requires WellFormedSource(request.source)
  {
    var captured := Captured(host, state, request);
    WorkerState(Some(request.workspaceRoot),
                if captured.Some? then Some(Cache(request.resolvedRoot, captured.value.entries)) else None)
  }

  function Reply(host: Host, state: WorkerState, request: Request): Option<Response>
    requires WellFormedSource(request.source)
  {
    var captured := Captured(host, state, request);
    if captured.Some? then Some(Respond(host, request.source, captured.value)) else None
  }

  /** The worker's two module variables and its message handler. */
  class TrialWitnessWorker {
    var currentWorkspaceRoot: Option<string>
    var currentCache: Option<Cache>

    function State(): WorkerState
      reads this
    {
      WorkerState(currentWorkspaceRoot, currentCache)
    }

    constructor ()
      ensures State() == FreshWorker
    {
      currentWorkspaceRoot, currentCache := None, None;
    }

    method OnMessage(host: Host, request: Request) returns (response: Option<Response>)
      requires WellFormedSource(request.source)
      modifies this
      ensures State() == NextState(host, old(State()), request)
      ensures response == Reply(host, old(State()), request)
    {
      if currentWorkspaceRoot != Some(request.workspaceRoot) {
        currentWorkspaceRoot := Some(request.workspaceRoot);
        currentCache := None;
      }
      var c := ContextOf(host, request.source, Previous(currentCache, request.resolvedRoot));
      var scan := new ManifestScan();
      var ok, header := false, "";
      match request.source {
        case PlainSource(dir, _) => ok := scan.Visit(c, "", dir);
        case GitSource(controlDigest, controlStable, paths, found) =>
          header := Terminated(["git-source-v1", controlDigest]);
          ok := scan.VisitGit(c, paths, found);
          ok := ok && controlStable;
        case RefusedSource =>
      }
      if !ok {
        currentCache := None;
        return None;
      }
      ghost var s := Scan(c, request.source).value;
      assert "" + EncodeRecords(s.records) == EncodeRecords(s.records);
      assert map[] + s.entries == s.entries;
      currentCache := Some(Cache(request.resolvedRoot, scan.nextEntries));
      response := Some(Response(host.sha256(header + scan.fed), scan.fileCount, scan.totalBytes,
                                scan.hashedFileCount, scan.reusedFileCount));
    }
  }

  // ----- Whole runs -----

  ghost predicate SourceOf(w: World, request: Request) {
    match request.source
    case PlainSource(dir, _) => dir.DirNode? && TreeOf(w, request.resolvedRoot, "", dir)
    case GitSource(_, _, _, found) => GitTreeOf(w, request.resolvedRoot, found)
    case RefusedSource => true
  }

  /** The states a worker goes through, one request after another. */
  ghost predicate Run(w: World, host: Host, states: seq<WorkerState>, requests: seq<Request>) {
    && |states| == |requests| + 1
    && states[0] == FreshWorker
    && (forall i | 0 <= i < |requests| ::
          WellFormedSource(requests[i].source) && SourceOf(w, requests[i])
          && states[i + 1] == NextState(host, states[i], requests[i]))
  }

  ghost predicate CacheOf(w: World, host: Host, state: WorkerState) {
    state.cache.Some? ==> EntriesOf(w, host.sha256, state.cache.value.root, state.cache.value.entries)
  }

  ghost predicate RequestReadable(host: Host, state: WorkerState, request: Request)
    requires WellFormedSource(request.source)
  {
    var c := ContextOf(host, request.source, Previous(StartingCache(state, request), request.resolvedRoot));
    match request.source
    case PlainSource(dir, _) => ReusedReadable(c, "", dir)
    case GitSource(_, _, paths, found) => GitReadable(c, paths, found)
    case RefusedSource => true
  }

  lemma RequestMatches(w: World, host: Host, state: WorkerState, request: Request)
    requires WellFormedSource(request.source) && SourceOf(w, request) && CacheOf(w, host, state)
    requires !host.excluded("")
    ensures Matches(Captured(host, state, request), Captured(host, FreshWorker, request),
                    RequestReadable(host, state, request))
    ensures CacheOf(w, host, NextState(host, state, request))
    ensures Captured(host, state, request).Some? ==>
              var s := Captured(host, state, request).value; s.hashed + s.reused == FileCount(s.records)
  {
    var c := ContextOf(host, request.source, Previous(StartingCache(state, request), request.resolvedRoot));
    match request.source {
      case PlainSource(dir, _) => DirectoryMatches(w, c, request.resolvedRoot, "", dir);
      case GitSource(_, _, paths, found) => GitMatches(w, c, request.resolvedRoot, paths, paths, found);
      case RefusedSource =>
    }
  }

  lemma {:induction false} RunKeepsCache(w: World, host: Host, states: seq<WorkerState>, requests: seq<Request>, i: nat)
    requires Run(w, host, states, requests) && i <= |requests| && !host.excluded("")
    ensures CacheOf(w, host, states[i])
  {
    if i > 0 {
      RunKeepsCache(w, host, states, requests, i - 1);
      RequestMatches(w, host, states[i - 1], requests[i - 1]);
    }
  }

  /**
   * At any point of any run, including root switches and failed requests, the worker answers with the digest, file
   * count and byte total of a cold capture whenever a cold capture succeeds, and every counted file was either
   * hashed or reused. It also answers when a cold capture would fail, exactly if the only obstacle is a reused file
   * that could not have been read.
   */
  lemma CachedCaptureIsCold(w: World, host: Host, states: seq<WorkerState>, requests: seq<Request>, i: nat)
    requires Run(w, host, states, requests) && i < |requests| && !host.excluded("")
    ensures var warm, cold := Reply(host, states[i], requests[i]), Reply(host, FreshWorker, requests[i]);
            && (warm.Some? ==> warm.value.hashed + warm.value.reused == warm.value.fileCount)
            && (cold.Some? <==> warm.Some? && RequestReadable(host, states[i], requests[i]))
            && (cold.Some? ==>
                  && warm.value.digest == cold.value.digest
                  && warm.value.fileCount == cold.value.fileCount
                  && warm.value.totalBytes == cold.value.totalBytes
                  && cold.value.reused == 0)
  {
    RunKeepsCache(w, host, states, requests, i);
    RequestMatches(w, host, states[i], requests[i]);
    assert CacheOf(w, host, FreshWorker);
    if Captured(host, FreshWorker, requests[i]).Some? {
      ColdReusesNothing(host, requests[i]);
    }
  }

  /** A workspace with a single file. */
  function OneFile(meta: Metadata, content: string, stable: bool): Request {
    Request("root", "root", PlainSource(DirNode(map["f" := FileNode(meta, content, stable)], true), path => ["f"]))
  }

  lemma OneFileScan(c: Context, meta: Metadata, content: string, stable: bool)
    requires c.listing("") == ["f"]
    ensures var file := FileNode(meta, content, stable);
            ScanDirectory(c, "", DirNode(map["f" := file], true)) == Then(ScanFile(c, "f", file), Some(Nothing))
  {
    var dir := DirNode(map["f" := FileNode(meta, content, stable)], true);
    assert Sort(["f"], StringLeq) == ["f"] by {
      assert ["f"][1..] == [];
    }
    assert ["f"][1..] == [];
    assert ScanNames(c, "", dir, []) == Some(Nothing);
    assert ScanNames(c, "", dir, ["f"]) == Then(ScanEntry(c, "f", dir.entries["f"]), ScanNames(c, "", dir, []));
  }

  /** Captured once, a file that then changes while it is read, under the same metadata, fails a cold capture only. */
  lemma WarmCaptureOfUnreadableFile(w: World, host: Host, meta: Metadata)
    ensures var content := w.file("root", "f", meta);
            var first, second := OneFile(meta, content, true), OneFile(meta, content, false);
            && SourceOf(w, first) && SourceOf(w, second)
            && Reply(host, NextState(host, FreshWorker, first), second).Some?
            && Reply(host, FreshWorker, second).None?
  {
    var content := w.file("root", "f", meta);
    var first, second := OneFile(meta, content, true), OneFile(meta, content, false);
    assert JoinPath("", "f") == "f";
    OneFileScan(ContextOf(host, first.source, map[]), meta, content, true);
    OneFileScan(ContextOf(host, second.source, map[]), meta, content, false);
    var previous := NextState(host, FreshWorker, first).cache.value.entries;
    OneFileScan(ContextOf(host, second.source, previous), meta, content, false);
    assert previous == map["f" := CachedFile(meta, host.sha256(content))];
  }

  lemma ColdReusesNothing(host: Host, request: Request)
    requires WellFormedSource(request.source) && Captured(host, FreshWorker, request).Some?
    ensures Captured(host, FreshWorker, request).value.reused == 0
  {
    var c := ContextOf(host, request.source, map[]);
    match request.source {
      case PlainSource(dir, _) => ColdDirectory(c, "", dir);
      case GitSource(_, _, paths, found) => ColdGit(c, paths, paths, found);
      case RefusedSource =>
    }
  }

  lemma {:induction false} ColdEntry(c: Context, path: string, node: Node)
    requires c.previous == map[]
    ensures ScanEntry(c, path, node).Some? ==> ScanEntry(c, path, node).value.reused == 0
    decreases node, 1, 0
  {
    if node.DirNode? && !c.excluded(path) {
      ColdDirectory(c, path, node);
    }
  }

  lemma {:induction false} ColdDirectory(c: Context, path: string, dir: Node)
    requires dir.DirNode? && c.previous == map[]
    ensures ScanDirectory(c, path, dir).Some? ==> ScanDirectory(c, path, dir).value.reused == 0
    decreases dir, 0, |c.listing(path)| + 1
  {
    SortPermutes(c.listing(path), StringLeq);
    ColdNames(c, path, dir, SortStrings(c.listing(path)));
  }

  lemma {:induction false} ColdNames(c: Context, path: string, dir: Node, names: seq<string>)
    requires dir.DirNode? && c.previous == map[]
    ensures ScanNames(c, path, dir, names).Some? ==> ScanNames(c, path, dir, names).value.reused == 0
    decreases dir, 0, |names|
  {
    if names != [] && names[0] in dir.entries {
      ColdEntry(c, JoinPath(path, names[0]), dir.entries[names[0]]);
      ColdNames(c, path, dir, names[1..]);
    }
  }

  lemma {:induction false} ColdGit(c: Context, all: seq<string>, paths: seq<string>, found: map<string, GitNode>)
    requires c.previous == map[]
    ensures ScanGit(c, all, paths, found).Some? ==> ScanGit(c, all, paths, found).value.reused == 0
  {
    if paths != [] {
      ColdGit(c, all, paths[1..], found);
    }
  }

  // ----- Enumeration order and the meaning of a digest -----

  /** Each directory is listed in full, in some order. */
  ghost predicate Lists(listing: string -> seq<string>, path: string, node: Node)
    decreases node
  {
    node.DirNode? ==>
      && multiset(listing(path)) == multiset(node.entries.Keys)
      && forall name | name in node.entries :: Lists(listing, JoinPath(path, name), node.entries[name])
  }

  /** The order in which directories happen to be enumerated does not affect a scan. */
  lemma {:induction false} EnumerationOrderIrrelevant(c: Context, other: string -> seq<string>, path: string, dir: Node)
    requires dir.DirNode? && Lists(c.listing, path, dir) && Lists(other, path, dir)
    ensures ScanDirectory(c, path, dir) == ScanDirectory(c.(listing := other), path, dir)
    decreases dir, 0
  {
    SortStringsCanonical(c.listing(path), other(path));
    SortPermutes(c.listing(path), StringLeq);
    forall name
      ensures name in SortStrings(c.listing(path)) ==> name in dir.entries
    {
      assert name in c.listing(path) ==> name in multiset(c.listing(path));
    }
    SameNames(c, other, path, dir, SortStrings(c.listing(path)));
  }

  lemma {:induction false} SameNames(c: Context, other: string -> seq<string>, path: string, dir: Node, names: seq<string>)
    requires dir.DirNode? && Lists(c.listing, path, dir) && Lists(other, path, dir)
    requires forall name | name in names :: name in dir.entries
    ensures ScanNames(c, path, dir, names) == ScanNames(c.(listing := other), path, dir, names)
    decreases dir, 0, |names|
  {
    if names != [] {
      var node := dir.entries[names[0]];
      assert names[0] in names;
      if node.DirNode? {
        EnumerationOrderIrrelevant(c, other, JoinPath(path, names[0]), node);
      }
      SameNames(c, other, path, dir, names[1..]);
    }
  }

  /** With a collision-free hash whose digests are plain text, equal digests come from equal manifests. */
  lemma EqualDigestsEqualManifests(host: Host, a: Source, x: Scanned, b: Source, y: Scanned)
    requires forall s: string, t: string :: host.sha256(s) == host.sha256(t) ==> s == t
    requires CleanStream(StreamOf(a, x.records)) && CleanStream(StreamOf(b, y.records))
    ensures Respond(host, a, x).digest == Respond(host, b, y).digest ==>
              x.records == y.records && (a.GitSource? <==> b.GitSource?)
  {
    if Respond(host, a, x).digest == Respond(host, b, y).digest {
      EncodeInjective(StreamOf(a, x.records), StreamOf(b, y.records));
    }
  }
}
