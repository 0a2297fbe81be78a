/** Small vocabulary shared by every component of the model. */
module Common {

  datatype Option<+T> = None | Some(value: T)

  /** A SHA-256 digest. Keeping the preimage makes distinct inputs distinct digests. */
  datatype Digest<+T> = Sha256(preimage: T)

  ghost predicate Distinct<T>(s: seq<T>) {
    forall i, j | 0 <= i < j < |s| :: s[i] != s[j]
  }

  /** String.prototype.includes. */
  ghost predicate Contains(text: string, part: string) {
    exists at: nat :: OccursAt(text, part, at)
  }

  predicate OccursAt(text: string, part: string, at: nat) {
    at + |part| <= |text| && text[at..at + |part|] == part
  }

  /** Characters removed by String.prototype.trim. */
  predicate IsSpace(c: char) {
    || '\t' <= c <= '\r'
    || c in {' ', '\U{a0}', '\U{1680}', '\U{2028}', '\U{2029}', '\U{202f}', '\U{205f}', '\U{3000}', '\U{feff}'}
    || '\U{2000}' <= c <= '\U{200a}'
  }

  /** text.trim().length === 0 */
  predicate Blank(text: string) {
    forall i | 0 <= i < |text| :: IsSpace(text[i])
  }

  predicate IsLetter(c: char) {
    'a' <= c <= 'z' || 'A' <= c <= 'Z'
  }

  /** Backslashes read as slashes. */
  function Slashes(path: string): (r: string)
    ensures |r| == |path|
    ensures forall i | 0 <= i < |r| :: r[i] == if path[i] == '\\' then '/' else path[i]
  {
    seq(|path|, i requires 0 <= i < |path| => if path[i] == '\\' then '/' else path[i])
  }

  function LowerChar(c: char): char {
    if 'A' <= c <= 'Z' then c - 'A' + 'a' else c
  }

  /** toLowerCase on the Basic Latin letters. */
  function Lower(s: string): string {
    seq(|s|, i requires 0 <= i < |s| => LowerChar(s[i]))
  }

  /** UTF-8 length of one Unicode scalar value. */
  function CharBytes(c: char): nat {
    if c < '\U{80}' then 1 else if c < '\U{800}' then 2 else if c < '\U{10000}' then 3 else 4
  }

  /** Buffer.byteLength(text, 'utf8') */
  function Utf8Length(text: string): nat {
    if text == [] then 0 else CharBytes(text[0]) + Utf8Length(text[1..])
  }

  lemma {:induction false} Utf8Append(a: string, b: string)
    ensures Utf8Length(a + b) == Utf8Length(a) + Utf8Length(b)
  {
    if a == [] {
      assert a + b == b;
    } else {
      Utf8Append(a[1..], b);
      assert (a + b)[1..] == a[1..] + b;
    }
  }

  /** Array.prototype.filter */
  function Matching<T>(s: seq<T>, p: T -> bool): seq<T> {
    if s == [] then []
    else Matching(s[..|s| - 1], p) + if p(s[|s| - 1]) then [s[|s| - 1]] else []
  }

  lemma {:induction false} NoMatch<T>(s: seq<T>, p: T -> bool)
    ensures Matching(s, p) == [] <==> forall k | 0 <= k < |s| :: !p(s[k])
  {
    if s != [] {
      NoMatch(s[..|s| - 1], p);
      assert forall k | 0 <= k < |s| - 1 :: s[..|s| - 1][k] == s[k];
    }
  }

  lemma {:induction false} MatchingMembers<T(!new)>(s: seq<T>, p: T -> bool)
    ensures forall x :: x in Matching(s, p) <==> x in s && p(x)
    ensures Distinct(s) ==> Distinct(Matching(s, p))
  {
    if s != [] {
      MatchingMembers(s[..|s| - 1], p);
      DistinctLast(s);
    }
  }

  /** A filter leaves one element exactly if one position matches. */
  lemma {:induction false} OneMatch<T>(s: seq<T>, p: T -> bool) returns (k: nat)
    requires |Matching(s, p)| == 1
    ensures k < |s| && p(s[k]) && Matching(s, p) == [s[k]]
    ensures forall j | 0 <= j < |s| && p(s[j]) :: j == k
  {
    var n := |s| - 1;
    assert forall j | 0 <= j < n :: s[..n][j] == s[j];
    if p(s[n]) {
      NoMatch(s[..n], p);
      k := n;
    } else {
      k := OneMatch(s[..n], p);
    }
  }

  lemma {:induction false} UniqueMatch<T>(s: seq<T>, p: T -> bool, k: nat)
    requires k < |s| && p(s[k])
    requires forall j | 0 <= j < |s| && p(s[j]) :: j == k
    ensures Matching(s, p) == [s[k]]
  {
    var n := |s| - 1;
    assert forall j | 0 <= j < n :: s[..n][j] == s[j];
    if k == n {
      NoMatch(s[..n], p);
    } else {
      UniqueMatch(s[..n], p, k);
    }
  }

  lemma {:induction false} MatchingAppend<T>(a: seq<T>, b: seq<T>, p: T -> bool)
    ensures Matching(a + b, p) == Matching(a, p) + Matching(b, p)
  {
    if b == [] {
      assert a + b == a;
    } else {
      var n := |b| - 1;
      MatchingAppend(a, b[..n], p);
      assert (a + b)[..|a + b| - 1] == a + b[..n];
    }
  }

  lemma SetOfLast<T>(s: seq<T>)
    requires s != []
    ensures var last := |s| - 1;
            |set x | x in s| == |set x | x in s[..last]| + if s[last] in s[..last] then 0 else 1
  {
    var last := |s| - 1;
    var rest, all := set x | x in s[..last], set x | x in s;
    assert all == rest + {s[last]};
    if s[last] in s[..last] {
      assert all == rest;
    }
  }

  lemma DistinctLast<T>(s: seq<T>)
    requires s != []
    ensures Distinct(s) <==> Distinct(s[..|s| - 1]) && s[|s| - 1] !in s[..|s| - 1]
  {
    var last := |s| - 1;
    if Distinct(s[..last]) && s[last] !in s[..last] {
      forall i, j | 0 <= i < j < |s|
        ensures s[i] != s[j]
      {
        assert s[i] == s[..last][i];
      }
    }
  }

  /** Comparing the size of the set of elements with the length tells whether elements repeat. */
  lemma {:induction false} SetSizeDistinct<T>(s: seq<T>)
    ensures |set x | x in s| <= |s|
    ensures |set x | x in s| == |s| <==> Distinct(s)
  {
    if s != [] {
      SetSizeDistinct(s[..|s| - 1]);
      SetOfLast(s);
      DistinctLast(s);
    }
  }

  lemma DistinctSetSize<T>(s: seq<T>)
    requires Distinct(s)
    ensures |set x | x in s| == |s|
  {
    SetSizeDistinct(s);
  }

  /** The set of the first n names, which are distinct. */
  ghost predicate SeenNames(seen: set<string>, names: seq<string>, n: nat)
    requires n <= |names|
  {
    && (forall k | 0 <= k < n :: names[k] in seen)
    && (forall name | name in seen :: exists k | 0 <= k < n :: names[k] == name)
    && (forall j, k | 0 <= j < k < n :: names[j] != names[k])
  }

  lemma SeeName(seen: set<string>, names: seq<string>, n: nat)
    requires n < |names| && SeenNames(seen, names, n)
    ensures names[n] in seen ==> !Distinct(names)
    ensures names[n] !in seen ==> SeenNames(seen + {names[n]}, names, n + 1)
  {
  }

  lemma SubsetSize<T>(a: set<T>, b: set<T>)
    requires a <= b
    ensures |a| <= |b|
  {
    assert |b - a| == |b| - |a|;
  }

  lemma SubsetOfSameSize<T>(a: set<T>, b: set<T>)
    requires a <= b && |a| == |b|
    ensures a == b
  {
    assert |b - a| == |b| - |a|;
  }

  /** The positions of a list of n elements. */
  function Indices(n: nat): (s: seq<nat>)
    ensures |s| == n && forall i | 0 <= i < n :: s[i] == i
  {
    seq(n, i => i)
  }

  lemma IndicesDistinct(n: nat)
    ensures Distinct(Indices(n))
  {
  }
}
