/** Equal inputs and contrasted outcomes: why a fault case cannot be mistaken for its normal case. */
module Contrast {
  import opened Common
  import opened Ordering
  import opened Json
  import opened JsonPointer
  import opened Plan
  import opened Workspace
  import opened Evaluation

  /** localeCompare as a "not after" test; nothing is assumed about it. */
  type Collation = (string, string) -> bool

  // ----- sameInputs -----

  predicate SameList(a: seq<string>, b: seq<string>) {
    Join(SortStrings(a), '\0') == Join(SortStrings(b), '\0')
  }

  /** Comparing items by a text they carry. */
  function By<T>(collate: Collation, key: T -> string): (T, T) -> bool {
    (x, y) => collate(key(x), key(y))
  }

  const PathOf: Fixture -> string := (f: Fixture) => f.path
  const NameOf: EnvironmentItem -> string := (item: EnvironmentItem) => item.name

  function SortFixtures(fixtures: seq<Fixture>, collate: Collation): seq<Fixture> {
    Sort(fixtures, By(collate, PathOf))
  }

  function SortEnvironment(items: seq<EnvironmentItem>, collate: Collation): seq<EnvironmentItem> {
    Sort(items, By(collate, NameOf))
  }

  predicate SameInputs(a: Case, b: Case, collate: Collation) {
    && SameList(a.targets, b.targets)
    && SortFixtures(a.fixtures, collate) == SortFixtures(b.fixtures, collate)
    && SortEnvironment(a.environment, collate) == SortEnvironment(b.environment, collate)
    && SameList(a.generatedInputs, b.generatedInputs)
    && SameList(a.deniedManualTasks, b.deniedManualTasks)
  }

  /** Task ids and paths are nonempty and contain no NUL. */
  predicate CleanNames(names: seq<string>) {
    forall i | 0 <= i < |names| :: names[i] != "" && '\0' !in names[i]
  }

  predicate CleanCase(c: Case) {
    CleanNames(c.targets) && CleanNames(c.generatedInputs) && CleanNames(c.deniedManualTasks)
  }

  /** Joining sorted clean names with NUL compares them as multisets. */
  lemma SameListMeaning(a: seq<string>, b: seq<string>)
    requires CleanNames(a) && CleanNames(b)
    ensures SameList(a, b) <==> multiset(a) == multiset(b)
  {
    var x, y := SortStrings(a), SortStrings(b);
    SortPermutes(a, StringLeq);
    SortPermutes(b, StringLeq);
    SortStringsCanonical(a, b);
    assert forall i | 0 <= i < |x| :: x[i] in a;
    assert forall i | 0 <= i < |y| :: y[i] in b;
    if SameList(a, b) {
      if x == [] || y == [] {
        EmptyJoin(x);
        EmptyJoin(y);
      } else {
        SplitJoin(x, '\0');
        SplitJoin(y, '\0');
      }
    }
  }

  lemma EmptyJoin(names: seq<string>)
    requires CleanNames(names)
    ensures Join(names, '\0') == "" <==> names == []
  {
  }

  /** Cases with the same inputs run the same targets on the same fixtures, environment, generated inputs and denials. */
  ghost predicate EqualInputs(a: Case, b: Case) {
    && multiset(a.targets) == multiset(b.targets)
    && multiset(a.fixtures) == multiset(b.fixtures)
    && multiset(a.environment) == multiset(b.environment)
    && multiset(a.generatedInputs) == multiset(b.generatedInputs)
    && multiset(a.deniedManualTasks) == multiset(b.deniedManualTasks)
  }

  /** The collation is an order that tells the fixtures and environment items of a case apart by path and name. */
  ghost predicate Collates(collate: Collation, c: Case) {
    && Preorder(collate)
    && Separates(By(collate, PathOf), c.fixtures) && Separates(By(collate, NameOf), c.environment)
  }

  lemma ByOrders<T(!new)>(collate: Collation, key: T -> string)
    requires Preorder(collate)
    ensures Preorder(By(collate, key))
  {
    var leq := By(collate, key);
    forall x, y, z
      ensures leq(x, x) && (leq(x, y) || leq(y, x)) && (leq(x, y) && leq(y, z) ==> leq(x, z))
    {
      assert leq(x, y) == collate(key(x), key(y)) && leq(y, z) == collate(key(y), key(z));
    }
  }

  lemma ComparedBy<T(!new)>(a: seq<T>, b: seq<T>, collate: Collation, key: T -> string)
    ensures Sort(a, By(collate, key)) == Sort(b, By(collate, key)) ==> multiset(a) == multiset(b)
    ensures Preorder(collate) && Separates(By(collate, key), a) && multiset(a) == multiset(b) ==>
              Sort(a, By(collate, key)) == Sort(b, By(collate, key))
  {
    SortPermutes(a, By(collate, key));
    SortPermutes(b, By(collate, key));
    if Preorder(collate) && Separates(By(collate, key), a) {
      ByOrders(collate, key);
      SortCanonical(a, b, By(collate, key));
    }
  }

  /**
   * Cases that are judged to have the same inputs have equal ones; and equal inputs are judged the same whenever the
   * collation tells the items of a case apart.
   */
  lemma SameInputsMeaning(a: Case, b: Case, collate: Collation)
    requires CleanCase(a) && CleanCase(b)
    ensures SameInputs(a, b, collate) ==> EqualInputs(a, b)
    ensures Collates(collate, a) && EqualInputs(a, b) ==> SameInputs(a, b, collate)
  {
    SameListMeaning(a.targets, b.targets);
    SameListMeaning(a.generatedInputs, b.generatedInputs);
    SameListMeaning(a.deniedManualTasks, b.deniedManualTasks);
    ComparedBy(a.fixtures, b.fixtures, collate, PathOf);
    ComparedBy(a.environment, b.environment, collate, NameOf);
  }

  // ----- contrasted -----

  predicate EmptyCollection(value: Json) {
    !Primitive(value) && Size(value) == 0
  }

  predicate Contrasted(e: Expectation, normal: Case) {
    match e
    case FileContains(path, text) =>
      PathExists(path) in normal.expectations && FileNotContains(path, text) in normal.expectations
    case PointerEquals(path, pointer, expected) =>
      exists i | 0 <= i < |normal.expectations| ::
        (match normal.expectations[i]
         case PointerEquals(p, q, other) => p == path && q == pointer && !SameJson(other, expected)
         case PointerCollection(p, q, kind, nonempty) =>
           nonempty && p == path && q == pointer && IsCollection(expected, kind) && Size(expected) == 0
         case _ => false)
    case _ => false
  }

  lemma {:induction false} SameDocumentSymmetric(a: Json, b: Json, signedZero: bool)
    requires SameDocument(a, b, signedZero)
    ensures SameDocument(b, a, signedZero)
    decreases a
  {
    if !Primitive(a) && !Primitive(b) {
      forall key: string | Own(a, key).Some? && Own(b, key).Some?
        ensures SameDocument(Own(b, key).value, Own(a, key).value, signedZero)
      {
        SameDocumentSymmetric(Own(a, key).value, Own(b, key).value, signedZero);
      }
    }
  }

  lemma {:induction false} SameDocumentTransitive(a: Json, b: Json, c: Json, signedZero: bool)
    requires SameDocument(a, b, signedZero) && SameDocument(b, c, signedZero)
    ensures SameDocument(a, c, signedZero)
    decreases a
  {
    if !Primitive(a) && !Primitive(b) && !Primitive(c) {
      forall key: string
        ensures Own(a, key).Some? <==> Own(c, key).Some?
        ensures Own(a, key).Some? && Own(c, key).Some? ==>
                  SameDocument(Own(a, key).value, Own(c, key).value, signedZero)
      {
        assert Own(a, key).Some? <==> Own(b, key).Some?;
        if Own(a, key).Some? {
          SameDocumentTransitive(Own(a, key).value, Own(b, key).value, Own(c, key).value, signedZero);
        }
      }
    }
  }

  /** One value cannot deeply equal two documents that sameJson tells apart. */
  lemma OneValueOneDocument(value: Json, a: Json, b: Json)
    requires Valid(value) && Valid(a) && Valid(b)
    requires DeepStrictEqual(value, a) && DeepStrictEqual(value, b)
    ensures SameJson(a, b)
  {
    DeepStrictEqualMeaning(value, a);
    DeepStrictEqualMeaning(value, b);
    SameDocumentSymmetric(value, a, true);
    SameDocumentTransitive(a, value, b, true);
    Weaken(a, b);
    SameJsonMeaning(a, b);
  }

  /** Every JSON value written in a plan was parsed from text. */
  ghost predicate ValidExpectations(c: Case) {
    forall i | 0 <= i < |c.expectations| && c.expectations[i].PointerEquals? :: Valid(c.expectations[i].expected)
  }

  /**
   * A contrasted expectation and the normal case's expectations cannot hold of the same files, whatever the two
   * runs were.
   */
  lemma ContrastExcludes(e: Expectation, normal: Case, fault: Outcome, other: Outcome)
    requires Contrasted(e, normal)
    requires e.PointerEquals? ==> Valid(e.expected)
    requires ValidExpectations(normal)
    requires ValidFiles(fault.files) && fault.files == other.files
    ensures !(Passes(fault, e) && PassesDeterministic(other, normal.expectations))
  {
    if Passes(fault, e) && PassesDeterministic(other, normal.expectations) {
      match e {
        case FileContains(path, text) =>
        case PointerEquals(path, pointer, expected) =>
          var i :| 0 <= i < |normal.expectations| &&
            (match normal.expectations[i]
             case PointerEquals(p, q, o) => p == path && q == pointer && !SameJson(o, expected)
             case PointerCollection(p, q, kind, nonempty) =>
               nonempty && p == path && q == pointer && IsCollection(expected, kind) && Size(expected) == 0
             case _ => false);
          var peer := normal.expectations[i];
          assert Passes(other, peer);
          var document := fault.files[path].json.value;
          var value := Lookup(document, pointer).value;
          EvaluateValid(document, Keys(pointer));
          if peer.PointerEquals? {
            OneValueOneDocument(value, peer.expected, expected);
          }
      }
    }
  }
}
