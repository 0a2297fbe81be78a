/** Capturing a workspace witness, from scratch or with the manifest cache of an earlier capture. */
module WitnessScan {
  import opened Common
  import opened Ordering
  import opened ManifestEncoding

  datatype Metadata = Metadata(size: nat, mtimeMs: int, ctimeMs: int, dev: int, ino: int)

  datatype TargetKind = FileTarget | DirectoryTarget | OtherTarget

  /** Where a symbolic link leads; None when its target cannot be resolved. */
  datatype LinkTarget = LinkTarget(relative: string, inside: bool, kind: TargetKind, canonical: string)

  /** stable is false when the scan finds the item changed while reading it. */
  datatype Node =
    | FileNode(meta: Metadata, content: string, stable: bool)
    | LinkNode(meta: Metadata, raw: string, target: Option<LinkTarget>, stable: bool)
    | DirNode(entries: map<string, Node>, stable: bool)
    | OtherNode

  datatype CacheEntry =
    | CachedFile(meta: Metadata, sha256: string)
    | CachedLink(meta: Metadata, rawSize: nat, rawSha256: string)

  type Manifest = map<string, CacheEntry>

  /** Host rules and inputs of one scan; listing is the order in which a directory happens to be enumerated. */
  datatype Context = Context(
    excluded: string -> bool,
    sha256: string -> string,
    listing: string -> seq<string>,
    previous: Manifest)

  /** What a scan produces. */
  datatype Scanned = Scanned(records: seq<Record>, entries: Manifest, hashed: nat, hashedBytes: nat, reused: nat)

  const Nothing := Scanned([], map[], 0, 0, 0)

  function Add(a: Scanned, b: Scanned): Scanned {
    Scanned(a.records + b.records, a.entries + b.entries, a.hashed + b.hashed, a.hashedBytes + b.hashedBytes, a.reused + b.reused)
  }

  function Then(a: Option<Scanned>, b: Option<Scanned>): Option<Scanned> {
    if a.Some? && b.Some? then Some(Add(a.value, b.value)) else None
  }

  predicate IsFileRecord(r: Record) {
    r.FileRecord? || r.SymlinkRecord?
  }

  function RecordBytes(r: Record): nat {
    match r
    case FileRecord(_, size, _) => size
    case SymlinkRecord(_, rawSize, _, _, _) => rawSize
    case _ => 0
  }

  function FileCount(records: seq<Record>): nat {
    if records == [] then 0 else (if IsFileRecord(records[0]) then 1 else 0) + FileCount(records[1..])
  }

  function TotalBytes(records: seq<Record>): nat {
    if records == [] then 0 else RecordBytes(records[0]) + TotalBytes(records[1..])
  }

  lemma {:induction false} CountAppend(a: seq<Record>, b: seq<Record>)
    ensures FileCount(a + b) == FileCount(a) + FileCount(b)
    ensures TotalBytes(a + b) == TotalBytes(a) + TotalBytes(b)
  {
    if a == [] {
      assert a + b == b;
    } else {
      CountAppend(a[1..], b);
      assert (a + b)[1..] == a[1..] + b;
    }
  }

  // ----- Files and links -----

  predicate ReusesFile(c: Context, path: string, meta: Metadata) {
    path in c.previous && c.previous[path].CachedFile? && c.previous[path].meta == meta
  }

  function ScanFile(c: Context, path: string, node: Node): Option<Scanned>
    requires node.FileNode?
  {
    var meta := node.meta;
    if ReusesFile(c, path, meta) then
      var digest := c.previous[path].sha256;
      Some(Scanned([FileRecord(path, meta.size, digest)], map[path := CachedFile(meta, digest)], 0, 0, 1))
    else if !node.stable then None
    else
      var digest := c.sha256(node.content);
      Some(Scanned([FileRecord(path, meta.size, digest)], map[path := CachedFile(meta, digest)], 1, meta.size, 0))
  }

  /** A link is followed only to a regular path inside the workspace that the Host does not manage. */
  predicate LinkAllowed(c: Context, target: Option<LinkTarget>) {
    target.Some? && target.value.inside && !c.excluded(target.value.relative) && !target.value.kind.OtherTarget?
  }

  function ScanLink(c: Context, path: string, node: Node, allowed: bool): Option<Scanned>
    requires node.LinkNode? && (allowed ==> node.target.Some?)
  {
    if !allowed || !node.stable then None
    else
      var canonical := node.target.value.canonical;
      var cached := path in c.previous && c.previous[path].CachedLink? && c.previous[path].meta == node.meta;
      var size := if cached then c.previous[path].rawSize else |node.raw|;
      var digest := if cached then c.previous[path].rawSha256 else c.sha256(node.raw);
      Some(Scanned([SymlinkRecord(path, size, digest, |canonical|, c.sha256(canonical))],
                   map[path := CachedLink(node.meta, size, digest)],
                   if cached then 0 else 1, if cached then 0 else |node.raw|, if cached then 1 else 0))
  }

  // ----- Plain directories -----

  function JoinPath(directory: string, name: string): string {
    if directory == "" then name else directory + "/" + name
  }

  function ScanEntry(c: Context, path: string, node: Node): Option<Scanned>
    decreases node, 1, 0
  {
    match node
    case LinkNode(_, _, target, _) => ScanLink(c, path, node, LinkAllowed(c, target))
    case DirNode(_, _) =>
      if c.excluded(path) then Some(Nothing)
      else Then(Some(Nothing.(records := [DirRecord(path)])), ScanDirectory(c, path, node))
    case FileNode(_, _, _) => ScanFile(c, path, node)
    case OtherNode => Some(Nothing)
  }

  function ScanDirectory(c: Context, path: string, dir: Node): Option<Scanned>
    requires dir.DirNode?
    decreases dir, 0, |c.listing(path)| + 1
  {
    SortPermutes(c.listing(path), StringLeq);
    var scanned := ScanNames(c, path, dir, SortStrings(c.listing(path)));
    if dir.stable then scanned else None
  }

  /** One name after another; a name that has disappeared is an error. */
  function ScanNames(c: Context, path: string, dir: Node, names: seq<string>): Option<Scanned>
    requires dir.DirNode?
    decreases dir, 0, |names|
  {
    if names == [] then Some(Nothing)
    else if names[0] !in dir.entries then None
    else Then(ScanEntry(c, JoinPath(path, names[0]), dir.entries[names[0]]), ScanNames(c, path, dir, names[1..]))
  }

  // ----- Git source paths -----

  /** canonicalInScope: the file's canonical path is itself one of the source paths. */
  datatype GitNode = GitNode(node: Node, canonicalInScope: bool)

  predicate TargetInScope(paths: seq<string>, target: LinkTarget) {
    if target.kind.FileTarget? then target.relative in paths
    else target.relative == "" || exists i | 0 <= i < |paths| ::
           |target.relative| < |paths[i]| && paths[i][..|target.relative| + 1] == target.relative + "/"
  }

  function ScanGitPath(c: Context, all: seq<string>, path: string, found: map<string, GitNode>): Option<Scanned> {
    if path !in found then Some(Nothing.(records := [MissingRecord(path)]))
    else match found[path].node
      case DirNode(_, _) => None
      case LinkNode(_, _, target, _) =>
        ScanLink(c, path, found[path].node, LinkAllowed(c, target) && TargetInScope(all, target.value))
      case OtherNode => Some(Nothing)
      case FileNode(_, _, _) => if found[path].canonicalInScope then ScanFile(c, path, found[path].node) else None
  }

  function ScanGit(c: Context, all: seq<string>, paths: seq<string>, found: map<string, GitNode>): Option<Scanned> {
    if paths == [] then Some(Nothing)
    else Then(ScanGitPath(c, all, paths[0], found), ScanGit(c, all, paths[1..], found))
  }

  // ----- The scan as the program makes it -----

  /** Running totals of a scan. */
  datatype Totals = Totals(fed: string, entries: Manifest, fileCount: nat, totalBytes: nat,
                           hashed: nat, hashedBytes: nat, reused: nat)

  function Advance(t: Totals, s: Scanned): Totals {
    Totals(t.fed + EncodeRecords(s.records), t.entries + s.entries, t.fileCount + FileCount(s.records),
           t.totalBytes + TotalBytes(s.records), t.hashed + s.hashed, t.hashedBytes + s.hashedBytes, t.reused + s.reused)
  }

  lemma AdvanceTwice(t: Totals, a: Scanned, b: Scanned)
    ensures Advance(Advance(t, a), b) == Advance(t, Add(a, b))
  {
    EncodeAppend(a.records, b.records);
    CountAppend(a.records, b.records);
    Associative(t.fed, EncodeRecords(a.records), EncodeRecords(b.records));
    assert (t.entries + a.entries) + b.entries == t.entries + (a.entries + b.entries);
  }

  lemma AdvanceOne(t: Totals, r: Record)
    ensures EncodeRecords([r]) == EncodeRecord(r)
    ensures FileCount([r]) == (if IsFileRecord(r) then 1 else 0) && TotalBytes([r]) == RecordBytes(r)
  {
    assert [r][1..] == [];
    assert EncodeRecords([]) == "";
  }

  /** One capture in progress: the text fed to the hash, the next manifest and the counters. */
  class ManifestScan {
    var fed: string
    var nextEntries: Manifest
    var fileCount: nat
    var totalBytes: nat
    var hashedFileCount: nat
    var hashedBytes: nat
    var reusedFileCount: nat

    function Now(): Totals
      reads this
    {
      Totals(fed, nextEntries, fileCount, totalBytes, hashedFileCount, hashedBytes, reusedFileCount)
    }

    constructor ()
      ensures Now() == Totals("", map[], 0, 0, 0, 0, 0)
    {
      fed, nextEntries := "", map[];
      fileCount, totalBytes, hashedFileCount, hashedBytes, reusedFileCount := 0, 0, 0, 0, 0;
    }

    method AddFile(c: Context, path: string, node: Node) returns (ok: bool)
      requires node.FileNode?
      modifies this
      ensures ok == ScanFile(c, path, node).Some?
      ensures ok ==> Now() == Advance(old(Now()), ScanFile(c, path, node).value)
    {
      var meta := node.meta;
      var digest;
      if ReusesFile(c, path, meta) {
        reusedFileCount := reusedFileCount + 1;
        digest := c.previous[path].sha256;
      } else {
        if !node.stable {
          return false;
        }
        hashedFileCount := hashedFileCount + 1;
        hashedBytes := hashedBytes + meta.size;
        digest := c.sha256(node.content);
      }
      AdvanceOne(Now(), FileRecord(path, meta.size, digest));
      fileCount := fileCount + 1;
      totalBytes := totalBytes + meta.size;
      nextEntries := nextEntries + map[path := CachedFile(meta, digest)];
      fed := fed + EncodeRecord(FileRecord(path, meta.size, digest));
      return true;
    }

    method AddLink(c: Context, path: string, node: Node, allowed: bool) returns (ok: bool)
      requires node.LinkNode? && (allowed ==> node.target.Some?)
      modifies this
      ensures ok == ScanLink(c, path, node, allowed).Some?
      ensures ok ==> Now() == Advance(old(Now()), ScanLink(c, path, node, allowed).value)
    {
      if !allowed || !node.stable {
        return false;
      }
      var canonical, size, digest := node.target.value.canonical, 0, "";
      if path in c.previous && c.previous[path].CachedLink? && c.previous[path].meta == node.meta {
        reusedFileCount := reusedFileCount + 1;
        size, digest := c.previous[path].rawSize, c.previous[path].rawSha256;
      } else {
        hashedFileCount := hashedFileCount + 1;
        hashedBytes := hashedBytes + |node.raw|;
        size, digest := |node.raw|, c.sha256(node.raw);
      }
      var r := SymlinkRecord(path, size, digest, |canonical|, c.sha256(canonical));
      AdvanceOne(Now(), r);
      fileCount := fileCount + 1;
      totalBytes := totalBytes + size;
      nextEntries := nextEntries + map[path := CachedLink(node.meta, size, digest)];
      fed := fed + EncodeRecord(r);
      return true;
    }

    method AddEntry(c: Context, path: string, node: Node) returns (ok: bool)
      modifies this
      ensures ok == ScanEntry(c, path, node).Some?
      ensures ok ==> Now() == Advance(old(Now()), ScanEntry(c, path, node).value)
      decreases node, 1
    {
      match node {
        case LinkNode(_, _, target, _) => ok := AddLink(c, path, node, LinkAllowed(c, target));
        case DirNode(_, _) =>
          if c.excluded(path) {
            return true;
          }
          ghost var start, only := Now(), Nothing.(records := [DirRecord(path)]);
          AdvanceOne(start, DirRecord(path));
          fed := fed + EncodeRecord(DirRecord(path));
          assert Now() == Advance(start, only);
          ok := Visit(c, path, node);
          if ok {
            AdvanceTwice(start, only, ScanDirectory(c, path, node).value);
          }
        case FileNode(_, _, _) => ok := AddFile(c, path, node);
        case OtherNode => return true;
      }
    }

    /** visit: a directory's entries in name order. */
    method Visit(c: Context, path: string, dir: Node) returns (ok: bool)
      requires dir.DirNode?
      modifies this
      ensures ok == ScanDirectory(c, path, dir).Some?
      ensures ok ==> Now() == Advance(old(Now()), ScanDirectory(c, path, dir).value)
      decreases dir, 0
    {
      var names := SortStrings(c.listing(path));
      ghost var start, done := Now(), Nothing;
      assert Now() == Advance(start, done);
      ThenNothing(ScanNames(c, path, dir, names));
      assert names[0..] == names;
      for i := 0 to |names|
        invariant Now() == Advance(start, done)
        invariant ScanNames(c, path, dir, names) == Then(Some(done), ScanNames(c, path, dir, names[i..]))
      {
        assert names[i..][0] == names[i] && names[i..][1..] == names[i + 1..];
        if names[i] !in dir.entries {
          return false;
        }
        ok := AddEntry(c, JoinPath(path, names[i]), dir.entries[names[i]]);
        if !ok {
          return;
        }
        ghost var next := ScanEntry(c, JoinPath(path, names[i]), dir.entries[names[i]]).value;
        AdvanceTwice(start, done, next);
        ThenAssociative(done, next, ScanNames(c, path, dir, names[i + 1..]));
        done := Add(done, next);
      }
      ThenNothing(Some(done));
      return dir.stable;
    }

    method AddGitPath(c: Context, all: seq<string>, path: string, found: map<string, GitNode>) returns (ok: bool)
      modifies this
      ensures ok == ScanGitPath(c, all, path, found).Some?
      ensures ok ==> Now() == Advance(old(Now()), ScanGitPath(c, all, path, found).value)
    {
      if path !in found {
        AdvanceOne(Now(), MissingRecord(path));
        fed := fed + EncodeRecord(MissingRecord(path));
        return true;
      }
      var node := found[path].node;
      match node {
        case DirNode(_, _) => return false;
        case LinkNode(_, _, target, _) =>
          ok := AddLink(c, path, node, LinkAllowed(c, target) && TargetInScope(all, target.value));
        case OtherNode => return true;
        case FileNode(_, _, _) =>
          if !found[path].canonicalInScope {
            return false;
          }
          ok := AddFile(c, path, node);
      }
    }

    /** The hashing loop over Git source paths. */
    method VisitGit(c: Context, paths: seq<string>, found: map<string, GitNode>) returns (ok: bool)
      modifies this
      ensures ok == ScanGit(c, paths, paths, found).Some?
      ensures ok ==> Now() == Advance(old(Now()), ScanGit(c, paths, paths, found).value)
    {
      ghost var start, done := Now(), Nothing;
      assert Now() == Advance(start, done);
      ThenNothing(ScanGit(c, paths, paths, found));
      assert paths[0..] == paths;
      for i := 0 to |paths|
        invariant Now() == Advance(start, done)
        invariant ScanGit(c, paths, paths, found) == Then(Some(done), ScanGit(c, paths, paths[i..], found))
      {
        assert paths[i..][0] == paths[i] && paths[i..][1..] == paths[i + 1..];
        ok := AddGitPath(c, paths, paths[i], found);
        if !ok {
          return;
        }
        ghost var next := ScanGitPath(c, paths, paths[i], found).value;
        AdvanceTwice(start, done, next);
        ThenAssociative(done, next, ScanGit(c, paths, paths[i + 1..], found));
        done := Add(done, next);
      }
      ThenNothing(Some(done));
      return true;
    }
  }

  lemma ThenNothing(s: Option<Scanned>)
    ensures Then(Some(Nothing), s) == s && Then(s, Some(Nothing)) == s
  {
    if s.Some? {
      assert [] + s.value.records == s.value.records && s.value.records + [] == s.value.records;
      assert map[] + s.value.entries == s.value.entries && s.value.entries + map[] == s.value.entries;
    }
  }

  lemma ThenAssociative(a: Scanned, b: Scanned, c: Option<Scanned>)
    ensures Then(Some(a), Then(Some(b), c)) == Then(Some(Add(a, b)), c)
  {
    if c.Some? {
      assert a.records + (b.records + c.value.records) == (a.records + b.records) + c.value.records;
      assert a.entries + (b.entries + c.value.entries) == (a.entries + b.entries) + c.value.entries;
    }
  }
}
