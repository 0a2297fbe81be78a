/** The NUL-separated byte stream a workspace witness is hashed from. */
module ManifestEncoding {
  import opened Common
  import opened Decimals
  import JsonPointer

  /** Sizes are byte counts; the other fields are paths and hexadecimal digests. */
  datatype Record =
    | DirRecord(path: string)
    | FileRecord(path: string, size: nat, sha256: string)
    | SymlinkRecord(path: string, rawSize: nat, rawSha256: string, canonicalSize: nat, canonicalSha256: string)
    | MissingRecord(path: string)

  /** A Git witness begins with the digest of the repository's control files; a plain witness does not. */
  datatype Stream = Stream(gitControlDigest: Option<string>, records: seq<Record>)

  predicate NulFree(s: string) {
    '\0' !in s
  }

  predicate CleanRecord(r: Record) {
    && NulFree(r.path)
    && match r
       case FileRecord(_, _, sha256) => NulFree(sha256)
       case SymlinkRecord(_, _, rawSha256, _, canonicalSha256) => NulFree(rawSha256) && NulFree(canonicalSha256)
       case _ => true
  }

  predicate CleanStream(s: Stream) {
    && (s.gitControlDigest.Some? ==> NulFree(s.gitControlDigest.value))
    && forall i | 0 <= i < |s.records| :: CleanRecord(s.records[i])
  }

  function Fields(r: Record): seq<string> {
    match r
    case DirRecord(path) => ["dir", path]
    case FileRecord(path, size, sha256) => ["file", path, ToDecimal(size), sha256]
    case SymlinkRecord(path, rawSize, rawSha256, canonicalSize, canonicalSha256) =>
      ["symlink", path, ToDecimal(rawSize), rawSha256, ToDecimal(canonicalSize), canonicalSha256]
    case MissingRecord(path) => ["missing", path]
  }

  /** Each field is followed by one NUL. */
  function Terminated(fields: seq<string>): string {
    if fields == [] then "" else fields[0] + "\0" + Terminated(fields[1..])
  }

  /** What one hash.update call appends. */
  function EncodeRecord(r: Record): string {
    Terminated(Fields(r))
  }

  function EncodeRecords(records: seq<Record>): string {
    if records == [] then "" else EncodeRecord(records[0]) + EncodeRecords(records[1..])
  }

  function Encode(s: Stream): string {
    (if s.gitControlDigest.Some? then Terminated(["git-source-v1", s.gitControlDigest.value]) else "")
    + EncodeRecords(s.records)
  }

  lemma Associative(a: string, b: string, c: string)
    ensures (a + b) + c == a + (b + c)
  {
  }

  lemma {:induction false} EncodeAppend(a: seq<Record>, b: seq<Record>)
    ensures EncodeRecords(a + b) == EncodeRecords(a) + EncodeRecords(b)
  {
    if a == [] {
      assert a + b == b;
    } else {
      calc {
        EncodeRecords(a + b);
        { assert (a + b)[0] == a[0] && (a + b)[1..] == a[1..] + b; }
        EncodeRecord(a[0]) + EncodeRecords(a[1..] + b);
        { EncodeAppend(a[1..], b); }
        EncodeRecord(a[0]) + (EncodeRecords(a[1..]) + EncodeRecords(b));
        { Associative(EncodeRecord(a[0]), EncodeRecords(a[1..]), EncodeRecords(b)); }
        EncodeRecords(a) + EncodeRecords(b);
      }
    }
  }

  // ----- Decoding -----

  function AllFields(records: seq<Record>): seq<string> {
    if records == [] then [] else Fields(records[0]) + AllFields(records[1..])
  }

  function StreamFields(s: Stream): seq<string> {
    (if s.gitControlDigest.Some? then ["git-source-v1", s.gitControlDigest.value] else []) + AllFields(s.records)
  }

  lemma {:induction false} TerminatedAppend(a: seq<string>, b: seq<string>)
    ensures Terminated(a + b) == Terminated(a) + Terminated(b)
  {
    if a == [] {
      assert a + b == b;
    } else {
      TerminatedAppend(a[1..], b);
      assert (a + b)[1..] == a[1..] + b;
      Associative(a[0] + "\0", Terminated(a[1..]), Terminated(b));
    }
  }

  lemma {:induction false} EncodeIsTerminated(records: seq<Record>)
    ensures EncodeRecords(records) == Terminated(AllFields(records))
  {
    if records != [] {
      EncodeIsTerminated(records[1..]);
      TerminatedAppend(Fields(records[0]), AllFields(records[1..]));
    }
  }

  lemma StreamIsTerminated(s: Stream)
    ensures Encode(s) == Terminated(StreamFields(s))
  {
    EncodeIsTerminated(s.records);
    if s.gitControlDigest.Some? {
      TerminatedAppend(["git-source-v1", s.gitControlDigest.value], AllFields(s.records));
    } else {
      assert StreamFields(s) == AllFields(s.records);
      assert Encode(s) == EncodeRecords(s.records);
    }
  }

  /** Splitting at NUL recovers the fields, followed by the empty text after the last NUL. */
  lemma {:induction false} SplitTerminated(fields: seq<string>)
    requires forall i | 0 <= i < |fields| :: NulFree(fields[i])
    ensures JsonPointer.Split(Terminated(fields), '\0') == fields + [""]
  {
    if fields != [] {
      SplitTerminated(fields[1..]);
      JsonPointer.SplitPrefix(fields[0], Terminated(fields[1..]), '\0');
      assert fields == [fields[0]] + fields[1..];
    }
  }

  function ParseSize(s: string): Option<nat> {
    if IsCanonical(s) then Some(FromDecimal(s)) else None
  }

  /** Reads records from fields; the tag says how many fields follow. */
  function ParseRecords(fields: seq<string>): Option<seq<Record>> {
    if fields == [] then Some([])
    else if |fields| >= 2 && fields[0] == "dir" then Prepend(DirRecord(fields[1]), ParseRecords(fields[2..]))
    else if |fields| >= 2 && fields[0] == "missing" then Prepend(MissingRecord(fields[1]), ParseRecords(fields[2..]))
    else if |fields| >= 4 && fields[0] == "file" && ParseSize(fields[2]).Some? then
      Prepend(FileRecord(fields[1], ParseSize(fields[2]).value, fields[3]), ParseRecords(fields[4..]))
    else if |fields| >= 6 && fields[0] == "symlink" && ParseSize(fields[2]).Some? && ParseSize(fields[4]).Some? then
      Prepend(SymlinkRecord(fields[1], ParseSize(fields[2]).value, fields[3], ParseSize(fields[4]).value, fields[5]),
              ParseRecords(fields[6..]))
    else None
  }

  function Prepend(r: Record, rest: Option<seq<Record>>): Option<seq<Record>> {
    if rest.Some? then Some([r] + rest.value) else None
  }

  function Decode(text: string): Option<Stream> {
    var parts := JsonPointer.Split(text, '\0');
    var fields := parts[..|parts| - 1];
    if parts[|parts| - 1] != "" then None
    else if |fields| >= 2 && fields[0] == "git-source-v1" then
      var records := ParseRecords(fields[2..]);
      if records.Some? then Some(Stream(Some(fields[1]), records.value)) else None
    else
      var records := ParseRecords(fields);
      if records.Some? then Some(Stream(None, records.value)) else None
  }

  lemma {:induction false} ParseOne(r: Record, rest: seq<string>)
    ensures ParseRecords(Fields(r) + rest) == Prepend(r, ParseRecords(rest))
  {
    var fields := Fields(r) + rest;
    assert fields[|Fields(r)|..] == rest;
    match r {
      case FileRecord(_, size, _) => PrintThenParse(size);
      case SymlinkRecord(_, rawSize, _, canonicalSize, _) =>
        PrintThenParse(rawSize);
        PrintThenParse(canonicalSize);
      case _ =>
    }
  }

  lemma {:induction false} ParseAll(records: seq<Record>)
    ensures ParseRecords(AllFields(records)) == Some(records)
  {
    if records != [] {
      ParseAll(records[1..]);
      ParseOne(records[0], AllFields(records[1..]));
      assert records == [records[0]] + records[1..];
    }
  }

  lemma DigitsNulFree(n: nat)
    ensures NulFree(ToDecimal(n))
  {
    PrintThenParse(n);
  }

  lemma {:induction false} FieldsNulFree(records: seq<Record>)
    requires forall i | 0 <= i < |records| :: CleanRecord(records[i])
    ensures forall i | 0 <= i < |AllFields(records)| :: NulFree(AllFields(records)[i])
    ensures records != [] ==> |AllFields(records)| >= 2 && AllFields(records)[0] in {"dir", "file", "symlink", "missing"}
  {
    if records != [] {
      FieldsNulFree(records[1..]);
      match records[0] {
        case FileRecord(_, size, _) => DigitsNulFree(size);
        case SymlinkRecord(_, rawSize, _, canonicalSize, _) =>
          DigitsNulFree(rawSize);
          DigitsNulFree(canonicalSize);
        case _ =>
      }
      assert forall i | 0 <= i < |Fields(records[0])| :: NulFree(Fields(records[0])[i]);
    }
  }

  /** Decoding inverts encoding: the stream is uniquely decodable. */
  lemma DecodeEncode(s: Stream)
    requires CleanStream(s)
    ensures Decode(Encode(s)) == Some(s)
  {
    var fields := StreamFields(s);
    StreamIsTerminated(s);
    FieldsNulFree(s.records);
    SplitTerminated(fields);
    ParseAll(s.records);
    var parts := JsonPointer.Split(Encode(s), '\0');
    assert parts[..|parts| - 1] == fields;
    if s.gitControlDigest.Some? {
      assert fields[2..] == AllFields(s.records);
    } else {
      assert fields == AllFields(s.records);
    }
  }

  /** Equal byte streams come from equal manifests, and a plain witness is never a Git witness. */
  lemma EncodeInjective(a: Stream, b: Stream)
    requires CleanStream(a) && CleanStream(b) && Encode(a) == Encode(b)
    ensures a == b
  {
    DecodeEncode(a);
    DecodeEncode(b);
  }
}
