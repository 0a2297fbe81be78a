/** What a workspace witness says of the workspace: which trees have the same digest. */
module WitnessMeaning {
  import opened Common
  import opened Ordering
  import opened ManifestEncoding
  import opened WitnessScan
  import opened WitnessCache
  import JsonPointer

  // ----- Looking up a path in a tree -----

  datatype Item = DirItem | FileItem(size: nat, content: string) | LinkItem(raw: string, canonical: string)

  /** What there is to see of a node; None for anything but a directory, a regular file or a link that leads somewhere. */
  function ItemOf(node: Node): Option<Item> {
    match node
    case DirNode(_, _) => Some(DirItem)
    case FileNode(meta, content, _) => Some(FileItem(meta.size, content))
    case LinkNode(_, raw, target, _) => if target.Some? then Some(LinkItem(raw, target.value.canonical)) else None
    case OtherNode => None
  }

  /** The node reached from a directory by one name after another; excluded directories are not entered nor seen. */
  function NodeAt(excluded: string -> bool, path: string, dir: Node, names: seq<string>): Option<Node>
    requires names != []
    decreases |names|
  {
    if !dir.DirNode? || names[0] !in dir.entries then None
    else
      var child, at := dir.entries[names[0]], JoinPath(path, names[0]);
      if child.DirNode? && excluded(at) then None
      else if |names| == 1 then Some(child)
      else NodeAt(excluded, at, child, names[1..])
  }

  function ItemAt(excluded: string -> bool, path: string, dir: Node, names: seq<string>): Option<Item>
    requires names != []
  {
    var node := NodeAt(excluded, path, dir, names);
    if node.Some? then ItemOf(node.value) else None
  }

  /** Both directories hold the same items at every path that is not excluded. */
  ghost predicate SameItems(excluded: string -> bool, path: string, a: Node, b: Node) {
    forall names: seq<string> | names != [] :: ItemAt(excluded, path, a, names) == ItemAt(excluded, path, b, names)
  }

  /** The relative path of the item the names lead to. */
  function Under(path: string, names: seq<string>): string
    decreases |names|
  {
    if names == [] then path else Under(JoinPath(path, names[0]), names[1..])
  }

  function RecordOf(sha256: string -> string, path: string, item: Item): Record {
    match item
    case DirItem => DirRecord(path)
    case FileItem(size, content) => FileRecord(path, size, sha256(content))
    case LinkItem(raw, canonical) => SymlinkRecord(path, |raw|, sha256(raw), |canonical|, sha256(canonical))
  }

  // ----- The records of a scan are the items of the tree -----

  /** Digests that would be taken from the cache are those of the content. */
  ghost predicate Truthful(c: Context, path: string, node: Node)
    decreases node
  {
    match node
    case FileNode(meta, content, _) => ReusesFile(c, path, meta) ==> c.previous[path].sha256 == c.sha256(content)
    case LinkNode(meta, raw, _, _) =>
      path in c.previous && c.previous[path].CachedLink? && c.previous[path].meta == meta ==>
        c.previous[path].rawSize == |raw| && c.previous[path].rawSha256 == c.sha256(raw)
    case DirNode(entries, _) => forall name | name in entries :: Truthful(c, JoinPath(path, name), entries[name])
    case OtherNode => true
  }

  /** What one entry adds to the records, apart from what is below it. */
  lemma EntryRecords(c: Context, path: string, node: Node)
    requires ScanEntry(c, path, node).Some? && Truthful(c, path, node)
    ensures node.DirNode? && !c.excluded(path) ==>
              && ScanDirectory(c, path, node).Some?
              && ScanEntry(c, path, node).value.records == [DirRecord(path)] + ScanDirectory(c, path, node).value.records
    ensures node.DirNode? && c.excluded(path) ==> ScanEntry(c, path, node).value.records == []
    ensures !node.DirNode? ==>
              ScanEntry(c, path, node).value.records ==
                if ItemOf(node).Some? then [RecordOf(c.sha256, path, ItemOf(node).value)] else []
  {
  }

  lemma {:induction false} NamesHold(c: Context, path: string, dir: Node, names: seq<string>, name: string)
    requires dir.DirNode? && ScanNames(c, path, dir, names).Some? && name in names
    ensures name in dir.entries && ScanEntry(c, JoinPath(path, name), dir.entries[name]).Some?
    ensures forall r | r in ScanEntry(c, JoinPath(path, name), dir.entries[name]).value.records ::
              r in ScanNames(c, path, dir, names).value.records
  {
    if name != names[0] {
      NamesHold(c, path, dir, names[1..], name);
    }
  }

  lemma ListedName(c: Context, path: string, dir: Node, name: string)
    requires dir.DirNode? && Lists(c.listing, path, dir) && name in dir.entries
    ensures name in SortStrings(c.listing(path))
  {
    SortPermutes(c.listing(path), StringLeq);
    assert name in multiset(dir.entries.Keys);
    assert name in multiset(c.listing(path));
  }

  /** Every item that can be seen has its record. */
  lemma {:induction false} ItemRecorded(c: Context, path: string, dir: Node, names: seq<string>)
    requires dir.DirNode? && Lists(c.listing, path, dir) && Truthful(c, path, dir)
    requires ScanDirectory(c, path, dir).Some? && names != [] && ItemAt(c.excluded, path, dir, names).Some?
    ensures RecordOf(c.sha256, Under(path, names), ItemAt(c.excluded, path, dir, names).value)
         in ScanDirectory(c, path, dir).value.records
    decreases dir
  {
    var name, at := names[0], JoinPath(path, names[0]);
    var child := dir.entries[name];
    ListedName(c, path, dir, name);
    NamesHold(c, path, dir, SortStrings(c.listing(path)), name);
    EntryRecords(c, at, child);
    if |names| > 1 {
      assert NodeAt(c.excluded, path, dir, names) == NodeAt(c.excluded, at, child, names[1..]);
      ItemRecorded(c, at, child, names[1..]);
    } else {
      assert Under(at, names[1..]) == at;
    }
  }

  /** Every record of a scan is that of an item that can be seen. */
  lemma {:induction false} RecordedItem(c: Context, path: string, dir: Node, r: Record) returns (names: seq<string>)
    requires dir.DirNode? && Truthful(c, path, dir)
    requires ScanDirectory(c, path, dir).Some? && r in ScanDirectory(c, path, dir).value.records
    ensures names != [] && ItemAt(c.excluded, path, dir, names).Some?
    ensures r == RecordOf(c.sha256, Under(path, names), ItemAt(c.excluded, path, dir, names).value)
    decreases dir, 0, |c.listing(path)| + 1
  {
    SortPermutes(c.listing(path), StringLeq);
    names := RecordedName(c, path, dir, SortStrings(c.listing(path)), r);
  }

  lemma {:induction false} RecordedName(c: Context, path: string, dir: Node, list: seq<string>, r: Record)
    returns (names: seq<string>)
    requires dir.DirNode? && Truthful(c, path, dir)
    requires ScanNames(c, path, dir, list).Some? && r in ScanNames(c, path, dir, list).value.records
    ensures names != [] && ItemAt(c.excluded, path, dir, names).Some?
    ensures r == RecordOf(c.sha256, Under(path, names), ItemAt(c.excluded, path, dir, names).value)
    decreases dir, 0, |list|
  {
    var name, at := list[0], JoinPath(path, list[0]);
    var child := dir.entries[name];
    EntryRecords(c, at, child);
    if r !in ScanEntry(c, at, child).value.records {
      names := RecordedName(c, path, dir, list[1..], r);
    } else if child.DirNode? && r != DirRecord(at) {
      var below := RecordedItem(c, at, child, r);
      names := [name] + below;
      assert names[1..] == below;
    } else {
      names := [name];
      assert Under(at, names[1..]) == at;
    }
  }

  // ----- Equal records, equal items -----

  /** A name as directories hold them. */
  predicate GoodName(name: string) {
    name != "" && '/' !in name && NulFree(name)
  }

  ghost predicate GoodNames(names: seq<string>) {
    forall i | 0 <= i < |names| :: GoodName(names[i])
  }

  ghost predicate GoodTree(node: Node)
    decreases node
  {
    node.DirNode? ==> forall name | name in node.entries :: GoodName(name) && GoodTree(node.entries[name])
  }

  lemma {:induction false} FoundNames(excluded: string -> bool, path: string, dir: Node, names: seq<string>)
    requires GoodTree(dir) && names != [] && ItemAt(excluded, path, dir, names).Some?
    ensures GoodNames(names)
    decreases |names|
  {
    if |names| > 1 {
      FoundNames(excluded, JoinPath(path, names[0]), dir.entries[names[0]], names[1..]);
    }
  }

  lemma {:induction false} UnderDirectory(path: string, names: seq<string>)
    requires path != "" && names != []
    ensures Under(path, names) == path + "/" + JsonPointer.Join(names, '/')
    decreases |names|
  {
    var at := JoinPath(path, names[0]);
    if |names| > 1 {
      UnderDirectory(at, names[1..]);
      assert names[1..] != [];
      var rest := JsonPointer.Join(names[1..], '/');
      assert at + "/" + rest == path + "/" + (names[0] + ['/'] + rest);
    } else {
      assert Under(at, names[1..]) == at;
    }
  }

  lemma UnderRoot(names: seq<string>)
    requires GoodNames(names) && names != []
    ensures Under("", names) == JsonPointer.Join(names, '/')
  {
    assert JoinPath("", names[0]) == names[0] && names[0] != "";
    if |names| > 1 {
      UnderDirectory(names[0], names[1..]);
    }
  }

  /** A relative path comes from one list of names. */
  lemma UnderInjective(a: seq<string>, b: seq<string>)
    requires GoodNames(a) && GoodNames(b) && a != [] && b != [] && Under("", a) == Under("", b)
    ensures a == b
  {
    UnderRoot(a);
    UnderRoot(b);
    JsonPointer.SplitJoin(a, '/');
    JsonPointer.SplitJoin(b, '/');
  }

  lemma {:induction false} UnderNulFree(path: string, names: seq<string>)
    requires NulFree(path) && GoodNames(names)
    ensures NulFree(Under(path, names))
    decreases |names|
  {
    if names != [] {
      UnderNulFree(JoinPath(path, names[0]), names[1..]);
    }
  }

  ghost predicate CollisionFree(sha256: string -> string) {
    && (forall s: string, t: string :: sha256(s) == sha256(t) ==> s == t)
    && (forall s: string :: NulFree(sha256(s)))
  }

  lemma RecordInjective(sha256: string -> string, p: string, i: Item, q: string, j: Item)
    requires CollisionFree(sha256) && RecordOf(sha256, p, i) == RecordOf(sha256, q, j)
    ensures p == q && i == j
  {
  }

  /** A successful scan of a whole workspace, as digests are made of. */
  ghost predicate GoodScan(c: Context, dir: Node) {
    && dir.DirNode? && Lists(c.listing, "", dir) && Truthful(c, "", dir) && GoodTree(dir)
    && ScanDirectory(c, "", dir).Some? && CollisionFree(c.sha256)
  }

  /** What one scan's tree holds the other's holds too, if the records are the same. */
  lemma RecordsCarry(a: Context, x: Node, b: Context, y: Node, names: seq<string>)
    requires GoodScan(a, x) && GoodScan(b, y) && a.excluded == b.excluded && a.sha256 == b.sha256
    requires ScanDirectory(a, "", x).value.records == ScanDirectory(b, "", y).value.records
    requires names != [] && ItemAt(a.excluded, "", x, names).Some?
    ensures ItemAt(a.excluded, "", y, names) == ItemAt(a.excluded, "", x, names)
  {
    ItemRecorded(a, "", x, names);
    var item := ItemAt(a.excluded, "", x, names).value;
    var other := RecordedItem(b, "", y, RecordOf(a.sha256, Under("", names), item));
    RecordInjective(a.sha256, Under("", names), item, Under("", other), ItemAt(b.excluded, "", y, other).value);
    FoundNames(a.excluded, "", x, names);
    FoundNames(b.excluded, "", y, other);
    UnderInjective(names, other);
  }

  lemma SameRecordsSameItems(a: Context, x: Node, b: Context, y: Node)
    requires GoodScan(a, x) && GoodScan(b, y) && a.excluded == b.excluded && a.sha256 == b.sha256
    requires ScanDirectory(a, "", x).value.records == ScanDirectory(b, "", y).value.records
    ensures SameItems(a.excluded, "", x, y)
  {
    forall names: seq<string> | names != []
      ensures ItemAt(a.excluded, "", x, names) == ItemAt(a.excluded, "", y, names)
    {
      if ItemAt(a.excluded, "", x, names).Some? {
        RecordsCarry(a, x, b, y, names);
      } else if ItemAt(a.excluded, "", y, names).Some? {
        RecordsCarry(b, y, a, x, names);
      }
    }
  }

  /** Paths and digests hold no NUL, so the records can be read back from the hashed stream. */
  lemma RecordsClean(c: Context, dir: Node)
    requires GoodScan(c, dir)
    ensures CleanStream(Stream(None, ScanDirectory(c, "", dir).value.records))
  {
    var records := ScanDirectory(c, "", dir).value.records;
    forall i | 0 <= i < |records|
      ensures CleanRecord(records[i])
    {
      var names := RecordedItem(c, "", dir, records[i]);
      FoundNames(c.excluded, "", dir, names);
      UnderNulFree("", names);
    }
  }

  // ----- Equal items, equal records -----

  lemma {:induction false} FlaggedMembers(names: seq<string>, flag: string -> bool)
    ensures forall name :: name in Flagged(names, flag, true) <==> name in names && flag(name)
  {
    if names != [] {
      FlaggedMembers(names[1..], flag);
    }
  }

  lemma OneMore(head: string, rest: seq<string>, all: seq<string>)
    requires all != [] && head == all[0] && Sorted(all, StringLeq) && Distinct(all)
    requires Sorted(rest, StringLeq) && Distinct(rest) && forall name | name in rest :: name in all[1..]
    ensures Sorted([head] + rest, StringLeq) && Distinct([head] + rest)
  {
    forall j | 0 <= j < |rest|
      ensures StringLeq(head, rest[j]) && head != rest[j]
    {
      assert rest[j] in all[1..];
      var k :| 0 <= k < |all[1..]| && all[1..][k] == rest[j];
      assert all[k + 1] == rest[j];
    }
  }

  lemma {:induction false} FlaggedInOrder(names: seq<string>, flag: string -> bool)
    requires Sorted(names, StringLeq) && Distinct(names)
    ensures Sorted(Flagged(names, flag, true), StringLeq) && Distinct(Flagged(names, flag, true))
  {
    if names != [] {
      var rest := Flagged(names[1..], flag, true);
      FlaggedInOrder(names[1..], flag);
      FlaggedMembers(names[1..], flag);
      OneMore(names[0], rest, names);
      assert [] + rest == rest;
    }
  }

  lemma SortedDistinctSame(a: seq<string>, b: seq<string>)
    requires Sorted(a, StringLeq) && Sorted(b, StringLeq) && Distinct(a) && Distinct(b)
    requires forall x :: x in a <==> x in b
    ensures a == b
  {
    StringOrder();
    DistinctCounts(a);
    DistinctCounts(b);
    forall x
      ensures multiset(a)[x] == multiset(b)[x]
    {
      assert multiset(a)[x] > 0 <==> x in a;
      assert multiset(b)[x] > 0 <==> x in b;
    }
    assert multiset(a) == multiset(b);
    SortedUnique(a, b, StringLeq);
  }

  /** What two ordered lists hold of the same flagged names is the same list. */
  lemma SameFlagged(p: seq<string>, f: string -> bool, q: seq<string>, g: string -> bool)
    requires Sorted(p, StringLeq) && Sorted(q, StringLeq) && Distinct(p) && Distinct(q)
    requires forall name :: name in p && f(name) <==> name in q && g(name)
    ensures Flagged(p, f, true) == Flagged(q, g, true)
  {
    FlaggedMembers(p, f);
    FlaggedMembers(q, g);
    FlaggedInOrder(p, f);
    FlaggedInOrder(q, g);
    SortedDistinctSame(Flagged(p, f, true), Flagged(q, g, true));
  }

  /** The names whose entries can be seen. */
  function Sees(excluded: string -> bool, path: string, dir: Node): string -> bool {
    (name: string) => ItemAt(excluded, path, dir, [name]).Some?
  }

  lemma ScanNext(c: Context, path: string, dir: Node, name: string, rest: seq<string>)
    requires dir.DirNode? && name in dir.entries
    ensures ScanNames(c, path, dir, [name] + rest)
         == Then(ScanEntry(c, JoinPath(path, name), dir.entries[name]), ScanNames(c, path, dir, rest))
  {
    assert ([name] + rest)[1..] == rest;
  }

  lemma UnseenRecords(c: Context, path: string, dir: Node, name: string)
    requires dir.DirNode? && Truthful(c, path, dir) && name in dir.entries
    requires ScanEntry(c, JoinPath(path, name), dir.entries[name]).Some? && !Sees(c.excluded, path, dir)(name)
    ensures ScanEntry(c, JoinPath(path, name), dir.entries[name]).value.records == []
  {
    EntryRecords(c, JoinPath(path, name), dir.entries[name]);
  }

  /** Nothing is recorded of what cannot be seen. */
  lemma {:induction false} VisibleScan(c: Context, path: string, dir: Node, names: seq<string>)
    requires dir.DirNode? && Truthful(c, path, dir) && ScanNames(c, path, dir, names).Some?
    ensures var visible := ScanNames(c, path, dir, Flagged(names, Sees(c.excluded, path, dir), true));
            visible.Some? && visible.value.records == ScanNames(c, path, dir, names).value.records
  {
    if names != [] {
      var name, rest := names[0], Flagged(names[1..], Sees(c.excluded, path, dir), true);
      VisibleScan(c, path, dir, names[1..]);
      if Sees(c.excluded, path, dir)(name) {
        ScanNext(c, path, dir, name, rest);
      } else {
        UnseenRecords(c, path, dir, name);
        assert [] + rest == rest;
      }
    }
  }

  lemma ListedOnce(c: Context, path: string, dir: Node)
    requires dir.DirNode? && Lists(c.listing, path, dir)
    ensures var names := SortStrings(c.listing(path));
            Sorted(names, StringLeq) && Distinct(names) && forall name :: name in names <==> name in dir.entries
  {
    var names := SortStrings(c.listing(path));
    SortPermutes(c.listing(path), StringLeq);
    StringOrder();
    SortSorts(c.listing(path), StringLeq);
    assert multiset(names) == multiset(dir.entries.Keys);
    DistinctCounts(names);
    forall name
      ensures name in names <==> name in dir.entries
    {
      assert name in names <==> name in multiset(names);
    }
  }

  lemma SameVisible(a: Context, x: Node, b: Context, y: Node, path: string)
    requires x.DirNode? && y.DirNode? && Lists(a.listing, path, x) && Lists(b.listing, path, y)
    requires a.excluded == b.excluded && SameItems(a.excluded, path, x, y)
    ensures Flagged(SortStrings(a.listing(path)), Sees(a.excluded, path, x), true)
         == Flagged(SortStrings(b.listing(path)), Sees(b.excluded, path, y), true)
  {
    ListedOnce(a, path, x);
    ListedOnce(b, path, y);
    forall name
      ensures Sees(a.excluded, path, x)(name) <==> Sees(b.excluded, path, y)(name)
    {
      assert ItemAt(a.excluded, path, x, [name]) == ItemAt(a.excluded, path, y, [name]);
    }
    SameFlagged(SortStrings(a.listing(path)), Sees(a.excluded, path, x),
                SortStrings(b.listing(path)), Sees(b.excluded, path, y));
  }

  lemma SameBelow(excluded: string -> bool, path: string, x: Node, y: Node, name: string)
    requires x.DirNode? && y.DirNode? && SameItems(excluded, path, x, y) && Sees(excluded, path, x)(name)
    ensures name in x.entries && name in y.entries && Sees(excluded, path, y)(name)
    ensures ItemOf(x.entries[name]) == ItemOf(y.entries[name])
    ensures x.entries[name].DirNode? ==>
              && y.entries[name].DirNode? && !excluded(JoinPath(path, name))
              && SameItems(excluded, JoinPath(path, name), x.entries[name], y.entries[name])
  {
    assert ItemAt(excluded, path, x, [name]) == ItemAt(excluded, path, y, [name]);
    if x.entries[name].DirNode? {
      forall names: seq<string> | names != []
        ensures ItemAt(excluded, JoinPath(path, name), x.entries[name], names)
             == ItemAt(excluded, JoinPath(path, name), y.entries[name], names)
      {
        assert ([name] + names)[1..] == names;
        assert ItemAt(excluded, path, x, [name] + names) == ItemAt(excluded, path, y, [name] + names);
      }
    }
  }

  /** The scans of two directories with the same items leave the same records. */
  lemma {:induction false} SameItemsSameRecords(a: Context, x: Node, b: Context, y: Node, path: string)
    requires x.DirNode? && y.DirNode? && Lists(a.listing, path, x) && Lists(b.listing, path, y)
    requires Truthful(a, path, x) && Truthful(b, path, y)
    requires ScanDirectory(a, path, x).Some? && ScanDirectory(b, path, y).Some?
    requires a.excluded == b.excluded && a.sha256 == b.sha256 && SameItems(a.excluded, path, x, y)
    ensures ScanDirectory(a, path, x).value.records == ScanDirectory(b, path, y).value.records
    decreases x, 1, 0
  {
    var p, q := SortStrings(a.listing(path)), SortStrings(b.listing(path));
    SameVisible(a, x, b, y, path);
    VisibleScan(a, path, x, p);
    VisibleScan(b, path, y, q);
    FlaggedMembers(p, Sees(a.excluded, path, x));
    SameNamesRecords(a, x, b, y, path, Flagged(p, Sees(a.excluded, path, x), true));
  }

  lemma {:induction false} SameNamesRecords(a: Context, x: Node, b: Context, y: Node, path: string, names: seq<string>)
    requires x.DirNode? && y.DirNode? && Lists(a.listing, path, x) && Lists(b.listing, path, y)
    requires Truthful(a, path, x) && Truthful(b, path, y)
    requires ScanNames(a, path, x, names).Some? && ScanNames(b, path, y, names).Some?
    requires a.excluded == b.excluded && a.sha256 == b.sha256 && SameItems(a.excluded, path, x, y)
    requires forall name | name in names :: Sees(a.excluded, path, x)(name)
    ensures ScanNames(a, path, x, names).value.records == ScanNames(b, path, y, names).value.records
    decreases x, 0, |names|
  {
    if names != [] {
      var at, p, q := JoinPath(path, names[0]), x.entries[names[0]], y.entries[names[0]];
      assert Sees(a.excluded, path, x)(names[0]);
      SameBelow(a.excluded, path, x, y, names[0]);
      EntryRecords(a, at, p);
      EntryRecords(b, at, q);
      if p.DirNode? {
        SameItemsSameRecords(a, p, b, q, at);
      }
      SameNamesRecords(a, x, b, y, path, names[1..]);
    }
  }

  // ----- Git source paths -----

  datatype Presence = Missing | Present(item: Item)

  /** What is to be seen of a source path: that nothing is there, or the file or link that is. */
  function GitAt(paths: seq<string>, found: map<string, GitNode>, path: string): Option<Presence> {
    if path !in paths then None
    else if path !in found then Some(Missing)
    else if ItemOf(found[path].node).Some? then Some(Present(ItemOf(found[path].node).value))
    else None
  }

  ghost predicate SameSourcePaths(p: seq<string>, f: map<string, GitNode>, q: seq<string>, g: map<string, GitNode>) {
    forall path :: GitAt(p, f, path) == GitAt(q, g, path)
  }

  function PresenceRecord(sha256: string -> string, path: string, presence: Presence): Record {
    if presence.Missing? then MissingRecord(path) else RecordOf(sha256, path, presence.item)
  }

  ghost predicate GitTruthful(c: Context, found: map<string, GitNode>) {
    forall path | path in found :: Truthful(c, path, found[path].node)
  }

  /** Source paths as Git and the Host list them: each once, in order, without NUL. */
  ghost predicate GitPaths(paths: seq<string>) {
    Sorted(paths, StringLeq) && Distinct(paths) && forall i | 0 <= i < |paths| :: NulFree(paths[i])
  }

  function SeesPath(all: seq<string>, found: map<string, GitNode>): string -> bool {
    (path: string) => GitAt(all, found, path).Some?
  }

  lemma GitPathRecords(c: Context, all: seq<string>, path: string, found: map<string, GitNode>)
    requires path in all && ScanGitPath(c, all, path, found).Some? && GitTruthful(c, found)
    ensures ScanGitPath(c, all, path, found).value.records ==
              if GitAt(all, found, path).Some? then [PresenceRecord(c.sha256, path, GitAt(all, found, path).value)] else []
    ensures GitAt(all, found, path) != Some(Present(DirItem))
  {
    if path in found {
      assert Truthful(c, path, found[path].node);
    }
  }

  /** The records of a Git scan, path by path. */
  function GitRecords(sha256: string -> string, all: seq<string>, found: map<string, GitNode>, paths: seq<string>)
    : seq<Record>
  {
    if paths == [] then []
    else
      var seen := GitAt(all, found, paths[0]);
      (if seen.Some? then [PresenceRecord(sha256, paths[0], seen.value)] else []) + GitRecords(sha256, all, found, paths[1..])
  }

  lemma {:induction false} GitScanRecords(c: Context, all: seq<string>, paths: seq<string>, found: map<string, GitNode>)
    requires ScanGit(c, all, paths, found).Some? && GitTruthful(c, found) && forall path | path in paths :: path in all
    ensures ScanGit(c, all, paths, found).value.records == GitRecords(c.sha256, all, found, paths)
    ensures forall path | path in paths :: GitAt(all, found, path) != Some(Present(DirItem))
  {
    if paths != [] {
      GitPathRecords(c, all, paths[0], found);
      GitScanRecords(c, all, paths[1..], found);
    }
  }

  lemma {:induction false} GitRecordsMembers(sha256: string -> string, all: seq<string>, found: map<string, GitNode>,
                                             paths: seq<string>)
    ensures forall path | path in paths && GitAt(all, found, path).Some? ::
              PresenceRecord(sha256, path, GitAt(all, found, path).value) in GitRecords(sha256, all, found, paths)
    ensures forall r | r in GitRecords(sha256, all, found, paths) :: exists path ::
              && path in paths && GitAt(all, found, path).Some?
              && r == PresenceRecord(sha256, path, GitAt(all, found, path).value)
  {
    if paths != [] {
      GitRecordsMembers(sha256, all, found, paths[1..]);
    }
  }

  lemma {:induction false} GitRecordsSeen(sha256: string -> string, all: seq<string>, found: map<string, GitNode>,
                                          paths: seq<string>)
    ensures GitRecords(sha256, all, found, Flagged(paths, SeesPath(all, found), true)) == GitRecords(sha256, all, found, paths)
  {
    if paths != [] {
      var rest := Flagged(paths[1..], SeesPath(all, found), true);
      GitRecordsSeen(sha256, all, found, paths[1..]);
      assert ([paths[0]] + rest)[1..] == rest;
      assert [] + rest == rest;
      assert [] + GitRecords(sha256, all, found, paths[1..]) == GitRecords(sha256, all, found, paths[1..]);
    }
  }

  lemma {:induction false} GitRecordsSame(sha256: string -> string, p: seq<string>, f: map<string, GitNode>,
                                          q: seq<string>, g: map<string, GitNode>, paths: seq<string>)
    requires SameSourcePaths(p, f, q, g)
    ensures GitRecords(sha256, p, f, paths) == GitRecords(sha256, q, g, paths)
  {
    if paths != [] {
      GitRecordsSame(sha256, p, f, q, g, paths[1..]);
      assert GitAt(p, f, paths[0]) == GitAt(q, g, paths[0]);
    }
  }

  lemma SamePathsSameRecords(sha256: string -> string, p: seq<string>, f: map<string, GitNode>,
                             q: seq<string>, g: map<string, GitNode>)
    requires GitPaths(p) && GitPaths(q) && SameSourcePaths(p, f, q, g)
    ensures GitRecords(sha256, p, f, p) == GitRecords(sha256, q, g, q)
  {
    GitRecordsSeen(sha256, p, f, p);
    GitRecordsSeen(sha256, q, g, q);
    forall path
      ensures path in p && SeesPath(p, f)(path) <==> path in q && SeesPath(q, g)(path)
    {
      assert GitAt(p, f, path) == GitAt(q, g, path);
    }
    SameFlagged(p, SeesPath(p, f), q, SeesPath(q, g));
    GitRecordsSame(sha256, p, f, q, g, Flagged(p, SeesPath(p, f), true));
  }

  lemma PresenceInjective(sha256: string -> string, p: string, i: Presence, q: string, j: Presence)
    requires CollisionFree(sha256) && PresenceRecord(sha256, p, i) == PresenceRecord(sha256, q, j)
    ensures p == q && i == j
  {
  }

  lemma GitRecordsCarry(sha256: string -> string, p: seq<string>, f: map<string, GitNode>,
                        q: seq<string>, g: map<string, GitNode>, path: string)
    requires CollisionFree(sha256) && GitRecords(sha256, p, f, p) == GitRecords(sha256, q, g, q)
    requires GitAt(p, f, path).Some?
    ensures GitAt(q, g, path) == GitAt(p, f, path)
  {
    var r := PresenceRecord(sha256, path, GitAt(p, f, path).value);
    GitRecordsMembers(sha256, p, f, p);
    GitRecordsMembers(sha256, q, g, q);
    assert r in GitRecords(sha256, q, g, q);
    var other :| other in q && GitAt(q, g, other).Some? && r == PresenceRecord(sha256, other, GitAt(q, g, other).value);
    PresenceInjective(sha256, path, GitAt(p, f, path).value, other, GitAt(q, g, other).value);
  }

  lemma SameRecordsSamePaths(sha256: string -> string, p: seq<string>, f: map<string, GitNode>,
                             q: seq<string>, g: map<string, GitNode>)
    requires CollisionFree(sha256) && GitRecords(sha256, p, f, p) == GitRecords(sha256, q, g, q)
    ensures SameSourcePaths(p, f, q, g)
  {
    forall path
      ensures GitAt(p, f, path) == GitAt(q, g, path)
    {
      if GitAt(p, f, path).Some? {
        GitRecordsCarry(sha256, p, f, q, g, path);
      } else if GitAt(q, g, path).Some? {
        GitRecordsCarry(sha256, q, g, p, f, path);
      }
    }
  }

  lemma GitRecordsClean(sha256: string -> string, all: seq<string>, found: map<string, GitNode>)
    requires CollisionFree(sha256) && GitPaths(all)
    ensures forall r | r in GitRecords(sha256, all, found, all) :: CleanRecord(r)
  {
    GitRecordsMembers(sha256, all, found, all);
  }

  // ----- What a digest says -----

  /** A source as a workspace gives it: complete listings of well-named entries, or ordered source paths. */
  ghost predicate GoodSource(source: Source) {
    match source
    case PlainSource(dir, listing) => dir.DirNode? && Lists(listing, "", dir) && GoodTree(dir)
    case GitSource(controlDigest, _, paths, _) => NulFree(controlDigest) && GitPaths(paths)
    case RefusedSource => true
  }

  /** The same items at every path that is not excluded; for Git sources, at every source path of the same repository state. */
  ghost predicate SameWorkspace(host: Host, a: Source, b: Source) {
    match (a, b)
    case (PlainSource(x, _), PlainSource(y, _)) => SameItems(host.excluded, "", x, y)
    case (GitSource(c, _, p, f), GitSource(d, _, q, g)) => c == d && SameSourcePaths(p, f, q, g)
    case _ => false
  }

  /** What the worker would take from its cache is what the source holds. */
  ghost predicate CacheTruthful(host: Host, state: WorkerState, request: Request) {
    var c := ContextOf(host, request.source, Previous(StartingCache(state, request), request.resolvedRoot));
    match request.source
    case PlainSource(dir, _) => Truthful(c, "", dir)
    case GitSource(_, _, _, found) => GitTruthful(c, found)
    case RefusedSource => true
  }

  /** A request that is answered, by a worker with a truthful cache and a collision-free hash. */
  ghost predicate Answered(host: Host, state: WorkerState, request: Request) {
    && CollisionFree(host.sha256) && WellFormedSource(request.source) && GoodSource(request.source)
    && CacheTruthful(host, state, request) && Captured(host, state, request).Some?
  }

  lemma AnswerClean(host: Host, state: WorkerState, request: Request)
    requires Answered(host, state, request)
    ensures CleanStream(StreamOf(request.source, Captured(host, state, request).value.records))
    ensures request.source.GitSource? ==>
              Captured(host, state, request).value.records
                == GitRecords(host.sha256, request.source.paths, request.source.found, request.source.paths)
  {
    var c := ContextOf(host, request.source, Previous(StartingCache(state, request), request.resolvedRoot));
    match request.source {
      case PlainSource(dir, _) => RecordsClean(c, dir);
      case GitSource(_, _, paths, found) =>
        GitScanRecords(c, paths, paths, found);
        GitRecordsClean(host.sha256, paths, found);
    }
  }

  lemma SameRecordsMeaning(host: Host, s: WorkerState, x: Request, t: WorkerState, y: Request)
    requires Answered(host, s, x) && Answered(host, t, y)
    ensures StreamOf(x.source, Captured(host, s, x).value.records) == StreamOf(y.source, Captured(host, t, y).value.records)
       <==> SameWorkspace(host, x.source, y.source)
  {
    var a := ContextOf(host, x.source, Previous(StartingCache(s, x), x.resolvedRoot));
    var b := ContextOf(host, y.source, Previous(StartingCache(t, y), y.resolvedRoot));
    AnswerClean(host, s, x);
    AnswerClean(host, t, y);
    match (x.source, y.source) {
      case (PlainSource(dir, _), PlainSource(other, _)) =>
        if ScanDirectory(a, "", dir).value.records == ScanDirectory(b, "", other).value.records {
          SameRecordsSameItems(a, dir, b, other);
        }
        if SameItems(host.excluded, "", dir, other) {
          SameItemsSameRecords(a, dir, b, other, "");
        }
      case (GitSource(_, _, p, f), GitSource(_, _, q, g)) =>
        if GitRecords(host.sha256, p, f, p) == GitRecords(host.sha256, q, g, q) {
          SameRecordsSamePaths(host.sha256, p, f, q, g);
        }
        if SameSourcePaths(p, f, q, g) {
          SamePathsSameRecords(host.sha256, p, f, q, g);
        }
      case _ =>
    }
  }

  /**
   * Two captures have the same digest exactly if their workspaces hold the same: the same directories, the same files
   * with the same sizes and contents and the same links with the same text and canonical target at every path that is
   * not excluded, or the same source paths, missing ones included, in the same repository state.
   */
  lemma DigestMeaning(host: Host, s: WorkerState, x: Request, t: WorkerState, y: Request)
    requires Answered(host, s, x) && Answered(host, t, y)
    ensures Reply(host, s, x).Some? && Reply(host, t, y).Some?
    ensures Reply(host, s, x).value.digest == Reply(host, t, y).value.digest <==> SameWorkspace(host, x.source, y.source)
  {
    var p, q := Captured(host, s, x).value, Captured(host, t, y).value;
    AnswerClean(host, s, x);
    AnswerClean(host, t, y);
    SameRecordsMeaning(host, s, x, t, y);
    if Encode(StreamOf(x.source, p.records)) == Encode(StreamOf(y.source, q.records)) {
      EncodeInjective(StreamOf(x.source, p.records), StreamOf(y.source, q.records));
    }
  }

  // ----- Cold captures, and captures with the cache of a run -----

  lemma {:induction false} ColdTruthful(c: Context, path: string, node: Node)
    requires c.previous == map[]
    ensures Truthful(c, path, node)
    decreases node
  {
    if node.DirNode? {
      forall name | name in node.entries
        ensures Truthful(c, JoinPath(path, name), node.entries[name])
      {
        ColdTruthful(c, JoinPath(path, name), node.entries[name]);
      }
    }
  }

  lemma {:induction false} PromisedTruthful(w: World, c: Context, root: string, path: string, node: Node)
    requires TreeOf(w, root, path, node) && EntriesOf(w, c.sha256, root, c.previous)
    ensures Truthful(c, path, node)
    decreases node
  {
    match node {
      case DirNode(entries, _) =>
        forall name | name in entries
          ensures Truthful(c, JoinPath(path, name), entries[name])
        {
          PromisedTruthful(w, c, root, JoinPath(path, name), entries[name]);
        }
      case FileNode(meta, _, _) =>
        assert path in c.previous ==> EntryOf(w, c.sha256, root, path, c.previous[path]);
      case LinkNode(meta, _, _, _) =>
        assert path in c.previous ==> EntryOf(w, c.sha256, root, path, c.previous[path]);
      case OtherNode =>
    }
  }

  lemma ColdCacheTruthful(host: Host, request: Request)
    ensures CacheTruthful(host, FreshWorker, request)
  {
    var c := ContextOf(host, request.source, map[]);
    match request.source {
      case PlainSource(dir, _) => ColdTruthful(c, "", dir);
      case GitSource(_, _, _, found) =>
        forall path | path in found
          ensures Truthful(c, path, found[path].node)
        {
          ColdTruthful(c, path, found[path].node);
        }
      case RefusedSource =>
    }
  }

  /** Two successful cold captures have the same digest exactly if the workspaces hold the same. */
  lemma ColdDigestMeaning(host: Host, x: Request, y: Request)
    requires CollisionFree(host.sha256)
    requires WellFormedSource(x.source) && GoodSource(x.source) && Reply(host, FreshWorker, x).Some?
    requires WellFormedSource(y.source) && GoodSource(y.source) && Reply(host, FreshWorker, y).Some?
    ensures Reply(host, FreshWorker, x).value.digest == Reply(host, FreshWorker, y).value.digest
       <==> SameWorkspace(host, x.source, y.source)
  {
    ColdCacheTruthful(host, x);
    ColdCacheTruthful(host, y);
    DigestMeaning(host, FreshWorker, x, FreshWorker, y);
  }

  lemma RunCacheTruthful(w: World, host: Host, states: seq<WorkerState>, requests: seq<Request>, i: nat)
    requires Run(w, host, states, requests) && i < |requests| && !host.excluded("")
    ensures CacheTruthful(host, states[i], requests[i])
  {
    RunKeepsCache(w, host, states, requests, i);
    var request := requests[i];
    var c := ContextOf(host, request.source, Previous(StartingCache(states[i], request), request.resolvedRoot));
    assert SourceOf(w, request);
    match request.source {
      case PlainSource(dir, _) => PromisedTruthful(w, c, request.resolvedRoot, "", dir);
      case GitSource(_, _, _, found) =>
        forall path | path in found
          ensures Truthful(c, path, found[path].node)
        {
          PromisedTruthful(w, c, request.resolvedRoot, path, found[path].node);
        }
      case RefusedSource =>
    }
  }

  /** The same of any two answers of any runs, whatever was taken from the cache. */
  lemma RunDigestMeaning(v: World, w: World, host: Host, ss: seq<WorkerState>, xs: seq<Request>, i: nat,
                         ts: seq<WorkerState>, ys: seq<Request>, j: nat)
    requires CollisionFree(host.sha256) && !host.excluded("")
    requires Run(v, host, ss, xs) && i < |xs| && GoodSource(xs[i].source) && Reply(host, ss[i], xs[i]).Some?
    requires Run(w, host, ts, ys) && j < |ys| && GoodSource(ys[j].source) && Reply(host, ts[j], ys[j]).Some?
    ensures Reply(host, ss[i], xs[i]).value.digest == Reply(host, ts[j], ys[j]).value.digest
       <==> SameWorkspace(host, xs[i].source, ys[j].source)
  {
    RunCacheTruthful(v, host, ss, xs, i);
    RunCacheTruthful(w, host, ts, ys, j);
    DigestMeaning(host, ss[i], xs[i], ts[j], ys[j]);
  }

  // ----- When a cold capture succeeds -----

  /** The node does not change meanwhile, and if it is a link it leads to a regular path inside that is not excluded. */
  predicate Capturable(excluded: string -> bool, node: Node) {
    match node
    case FileNode(_, _, stable) => stable
    case DirNode(_, stable) => stable
    case LinkNode(_, _, target, stable) =>
      && stable && target.Some? && target.value.inside && !excluded(target.value.relative)
      && (target.value.kind == FileTarget || target.value.kind == DirectoryTarget)
    case OtherNode => true
  }

  ghost predicate AllCapturable(excluded: string -> bool, path: string, dir: Node) {
    forall names: seq<string> | names != [] && NodeAt(excluded, path, dir, names).Some? ::
      Capturable(excluded, NodeAt(excluded, path, dir, names).value)
  }

  lemma {:induction false} ScansAll(c: Context, path: string, dir: Node, names: seq<string>)
    requires dir.DirNode? && forall name | name in names :: name in dir.entries
    ensures ScanNames(c, path, dir, names).Some? <==>
              forall name | name in names :: ScanEntry(c, JoinPath(path, name), dir.entries[name]).Some?
  {
    if names != [] {
      assert names[0] in names;
      ScansAll(c, path, dir, names[1..]);
    }
  }

  /** A plain capture without a cache succeeds exactly if every node that can be reached can be captured. */
  lemma {:induction false} ColdCaptureSucceeds(c: Context, path: string, dir: Node)
    requires dir.DirNode? && Lists(c.listing, path, dir) && c.previous == map[]
    ensures ScanDirectory(c, path, dir).Some? <==> dir.stable && AllCapturable(c.excluded, path, dir)
    decreases dir
  {
    ListedOnce(c, path, dir);
    ScansAll(c, path, dir, SortStrings(c.listing(path)));
    forall name | name in dir.entries
      ensures ScanEntry(c, JoinPath(path, name), dir.entries[name]).Some? <==> CapturableUnder(c.excluded, path, dir, name)
    {
      ColdEntrySucceeds(c, path, dir, name);
    }
    CapturableByName(c.excluded, path, dir);
  }

  /** Everything below one name can be captured. */
  ghost predicate CapturableUnder(excluded: string -> bool, path: string, dir: Node, name: string) {
    forall names: seq<string> | names != [] && names[0] == name && NodeAt(excluded, path, dir, names).Some? ::
      Capturable(excluded, NodeAt(excluded, path, dir, names).value)
  }

  lemma CapturableByName(excluded: string -> bool, path: string, dir: Node)
    requires dir.DirNode?
    ensures AllCapturable(excluded, path, dir)
       <==> forall name | name in dir.entries :: CapturableUnder(excluded, path, dir, name)
  {
    if forall name | name in dir.entries :: CapturableUnder(excluded, path, dir, name) {
      forall names: seq<string> | names != [] && NodeAt(excluded, path, dir, names).Some?
        ensures Capturable(excluded, NodeAt(excluded, path, dir, names).value)
      {
        assert CapturableUnder(excluded, path, dir, names[0]);
      }
    }
  }

  lemma {:induction false} ColdEntrySucceeds(c: Context, path: string, dir: Node, name: string)
    requires dir.DirNode? && Lists(c.listing, path, dir) && c.previous == map[] && name in dir.entries
    ensures ScanEntry(c, JoinPath(path, name), dir.entries[name]).Some? <==> CapturableUnder(c.excluded, path, dir, name)
    decreases dir, 0
  {
    var at, child := JoinPath(path, name), dir.entries[name];
    if child.DirNode? && !c.excluded(at) {
      ColdCaptureSucceeds(c, at, child);
      CapturableBelow(c.excluded, path, dir, name);
    } else {
      CapturableLeaf(c.excluded, path, dir, name);
    }
  }

  lemma CapturableBelow(excluded: string -> bool, path: string, dir: Node, name: string)
    requires dir.DirNode? && name in dir.entries && dir.entries[name].DirNode? && !excluded(JoinPath(path, name))
    ensures CapturableUnder(excluded, path, dir, name) <==>
              dir.entries[name].stable && AllCapturable(excluded, JoinPath(path, name), dir.entries[name])
  {
    var at, child := JoinPath(path, name), dir.entries[name];
    if CapturableUnder(excluded, path, dir, name) {
      assert NodeAt(excluded, path, dir, [name]) == Some(child);
      forall names: seq<string> | names != [] && NodeAt(excluded, at, child, names).Some?
        ensures Capturable(excluded, NodeAt(excluded, at, child, names).value)
      {
        assert ([name] + names)[1..] == names;
        assert NodeAt(excluded, path, dir, [name] + names) == NodeAt(excluded, at, child, names);
      }
    }
    if child.stable && AllCapturable(excluded, at, child) {
      forall names: seq<string> | names != [] && names[0] == name && NodeAt(excluded, path, dir, names).Some?
        ensures Capturable(excluded, NodeAt(excluded, path, dir, names).value)
      {
        assert |names| > 1 ==> NodeAt(excluded, path, dir, names) == NodeAt(excluded, at, child, names[1..]);
      }
    }
  }

  lemma CapturableLeaf(excluded: string -> bool, path: string, dir: Node, name: string)
    requires dir.DirNode? && name in dir.entries && (!dir.entries[name].DirNode? || excluded(JoinPath(path, name)))
    ensures CapturableUnder(excluded, path, dir, name)
       <==> dir.entries[name].DirNode? || Capturable(excluded, dir.entries[name])
  {
    if !dir.entries[name].DirNode? {
      assert NodeAt(excluded, path, dir, [name]) == Some(dir.entries[name]);
      forall names: seq<string> | names != [] && names[0] == name && NodeAt(excluded, path, dir, names).Some?
        ensures NodeAt(excluded, path, dir, names) == Some(dir.entries[name])
      {
      }
    }
  }

  // ----- The same for Git source paths -----

  /** The path is a source path, or a folder that holds one. */
  ghost predicate InScope(paths: seq<string>, target: LinkTarget) {
    if target.kind == FileTarget then target.relative in paths
    else target.relative == "" || exists path, rest: string :: path in paths && path == target.relative + "/" + rest
  }

  /** What is at a source path is captured: nothing, another kind of node, a file in scope or a link into it. */
  ghost predicate GitCapturable(excluded: string -> bool, paths: seq<string>, found: map<string, GitNode>, path: string) {
    path in found ==>
      && !found[path].node.DirNode? && Capturable(excluded, found[path].node)
      && (found[path].node.FileNode? ==> found[path].canonicalInScope)
      && (found[path].node.LinkNode? ==> InScope(paths, found[path].node.target.value))
  }

  lemma ScopeMeaning(paths: seq<string>, target: LinkTarget)
    ensures TargetInScope(paths, target) <==> InScope(paths, target)
  {
    if !target.kind.FileTarget? && target.relative != "" {
      if TargetInScope(paths, target) {
        var i :| 0 <= i < |paths| && |target.relative| < |paths[i]|
                 && paths[i][..|target.relative| + 1] == target.relative + "/";
        var rest := paths[i][|target.relative| + 1..];
        assert paths[i] == target.relative + "/" + rest && paths[i] in paths;
      }
      if path, rest: string :| path in paths && path == target.relative + "/" + rest {
        var i :| 0 <= i < |paths| && paths[i] == path;
        assert path[..|target.relative| + 1] == target.relative + "/";
      }
    }
  }

  lemma {:induction false} ColdGitSucceeds(c: Context, all: seq<string>, paths: seq<string>, found: map<string, GitNode>)
    requires c.previous == map[]
    ensures ScanGit(c, all, paths, found).Some? <==> forall path | path in paths :: GitCapturable(c.excluded, all, found, path)
  {
    if paths != [] {
      ColdGitSucceeds(c, all, paths[1..], found);
      if paths[0] in found && found[paths[0]].node.LinkNode? && found[paths[0]].node.target.Some? {
        ScopeMeaning(all, found[paths[0]].node.target.value);
      }
      assert ScanGitPath(c, all, paths[0], found).Some? <==> GitCapturable(c.excluded, all, found, paths[0]);
    }
  }

  /** A cold capture is answered exactly if its source was accepted and everything in it can be captured. */
  lemma ColdAnswered(host: Host, request: Request)
    requires WellFormedSource(request.source) && GoodSource(request.source)
    ensures Reply(host, FreshWorker, request).Some? <==>
              match request.source
              case PlainSource(dir, _) => dir.stable && AllCapturable(host.excluded, "", dir)
              case GitSource(_, controlStable, paths, found) =>
                controlStable && forall path | path in paths :: GitCapturable(host.excluded, paths, found, path)
              case RefusedSource => false
  {
    var c := ContextOf(host, request.source, map[]);
    match request.source {
      case PlainSource(dir, _) => ColdCaptureSucceeds(c, "", dir);
      case GitSource(_, _, paths, found) => ColdGitSucceeds(c, paths, paths, found);
      case RefusedSource =>
    }
  }
}
