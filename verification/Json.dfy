/** JSON values as JSON.parse produces them, and the two equality tests the program applies to them. */
module Json {
  import opened Common
  import opened Decimals
  import opened Ordering

  /** Objects list their members in insertion order; a number keeps the sign of zero. */
  datatype Json =
    | Null
    | Bool(b: bool)
    | Num(value: real, negativeZero: bool)
    | Str(s: string)
    | Arr(items: seq<Json>)
    | Obj(members: seq<Member>)

  datatype Member = Member(key: string, value: Json)

  /** Arrays are shorter than 2^32 in every JavaScript engine. */
  const ARRAY_LIMIT: nat := 0x1_0000_0000

  /** What every parsed document satisfies: unique keys, representable arrays, signed zeros only at zero. */
  ghost predicate Valid(j: Json) {
    match j
    case Num(v, negativeZero) => negativeZero ==> v == 0.0
    case Arr(items) => |items| < ARRAY_LIMIT && forall i | 0 <= i < |items| :: Valid(items[i])
    case Obj(members) =>
      && (forall i, k | 0 <= i < k < |members| :: members[i].key != members[k].key)
      && (forall i | 0 <= i < |members| :: Valid(members[i].value))
    case _ => true
  }

  predicate Primitive(j: Json) {
    !j.Arr? && !j.Obj?
  }

  /** Object.keys */
  function OwnKeys(j: Json): seq<string> {
    match j
    case Arr(items) => seq(|items|, i requires 0 <= i => ToDecimal(i))
    case Obj(members) => seq(|members|, i requires 0 <= i < |members| => members[i].key)
    case _ => []
  }

  /** The position of a member, or the number of members. */
  function Position(members: seq<Member>, key: string): (at: nat)
    ensures at <= |members|
    ensures at < |members| ==> members[at].key == key
    ensures forall i | 0 <= i < at :: members[i].key != key
  {
    if members == [] || members[0].key == key then 0 else 1 + Position(members[1..], key)
  }

  /** Reading an enumerable own property: value[key]. */
  function Own(j: Json, key: string): (r: Option<Json>)
    ensures r.Some? ==> r.value < j
  {
    match j
    case Arr(items) =>
      if IsCanonical(key) && FromDecimal(key) < |items| then Some(items[FromDecimal(key)]) else None
    case Obj(members) =>
      var at := Position(members, key);
      if at < |members| then Some(members[at].value) else None
    case _ => None
  }

  lemma OwnKeysAreOwn(j: Json, key: string)
    ensures key in OwnKeys(j) <==> Own(j, key).Some?
    ensures Valid(j) && Own(j, key).Some? ==> Valid(Own(j, key).value)
  {
    match j {
      case Arr(items) =>
        if Own(j, key).Some? {
          ParseThenPrint(key);
          assert OwnKeys(j)[FromDecimal(key)] == key;
        }
        if key in OwnKeys(j) {
          var i :| 0 <= i < |items| && OwnKeys(j)[i] == key;
          PrintThenParse(i);
        }
      case Obj(members) =>
        if Own(j, key).Some? {
          assert OwnKeys(j)[Position(members, key)] == key;
        }
      case _ =>
    }
  }

  lemma OwnKeysDistinct(j: Json)
    requires Valid(j)
    ensures Distinct(OwnKeys(j))
  {
    if j.Arr? {
      forall i, k | 0 <= i < k < |j.items|
        ensures OwnKeys(j)[i] != OwnKeys(j)[k]
      {
        if ToDecimal(i) == ToDecimal(k) {
          PrintInjective(i, k);
        }
      }
    }
  }

  /** === between two primitives; values parsed separately never share an object. */
  predicate StrictlyEqual(left: Json, right: Json) {
    match (left, right)
    case (Num(v, _), Num(w, _)) => v == w
    case _ => Primitive(left) && left == right
  }

  /** sameJson: compares sorted own keys position by position. */
  predicate SameJson(left: Json, right: Json)
    decreases left
  {
    if Primitive(left) || Primitive(right) then StrictlyEqual(left, right)
    else if left.Arr? != right.Arr? then false
    else
      var a, b := SortStrings(OwnKeys(left)), SortStrings(OwnKeys(right));
      && |a| == |b|
      && forall i | 0 <= i < |a| ::
           && a[i] == b[i]
           && Own(left, a[i]).Some? && Own(right, b[i]).Some?
           && SameJson(Own(left, a[i]).value, Own(right, b[i]).value)
  }

  /** util.isDeepStrictEqual: Object.is on primitives, own keys counted and looked up. */
  predicate DeepStrictEqual(left: Json, right: Json)
    decreases left
  {
    match (left, right)
    case (Arr(xs), Arr(ys)) => |xs| == |ys| && forall i | 0 <= i < |xs| :: DeepStrictEqual(xs[i], ys[i])
    case (Obj(xs), Obj(ys)) =>
      && |xs| == |ys|
      && forall i | 0 <= i < |xs| ::
           && Own(right, xs[i].key).Some?
           && DeepStrictEqual(xs[i].value, Own(right, xs[i].key).value)
    case _ => Primitive(left) && left == right
  }

  /** The same document: same kind, same keys, same value under every key; signed zeros told apart or not. */
  ghost predicate SameDocument(left: Json, right: Json, signedZero: bool)
    decreases left
  {
    match (left, right)
    case (Num(v, p), Num(w, q)) => v == w && (signedZero ==> p == q)
    case _ =>
      if Primitive(left) || Primitive(right) then left == right
      else
        && left.Arr? == right.Arr?
        && forall key: string ::
             && (Own(left, key).Some? <==> Own(right, key).Some?)
             && (Own(left, key).Some? && Own(right, key).Some? ==>
                   SameDocument(Own(left, key).value, Own(right, key).value, signedZero))
  }

  /** Two duplicate-free lists with the same elements sort to the same list. */
  lemma SameElementsSortEqual(a: seq<string>, b: seq<string>)
    requires Distinct(a) && Distinct(b)
    requires forall key :: key in a <==> key in b
    ensures SortStrings(a) == SortStrings(b)
  {
    DistinctMultiset(a);
    DistinctMultiset(b);
    assert (set x | x in a) == (set x | x in b);
    SortStringsCanonical(a, b);
  }

  lemma {:induction false} DistinctMultiset(a: seq<string>)
    requires Distinct(a)
    ensures multiset(a) == multiset(set x | x in a)
  {
    if a != [] {
      var front, last := a[..|a| - 1], a[|a| - 1];
      DistinctMultiset(front);
      assert a == front + [last];
      assert (set x | x in a) == (set x | x in front) + {last};
    }
  }

  lemma {:induction false} SameJsonMeaning(left: Json, right: Json)
    requires Valid(left) && Valid(right)
    ensures SameJson(left, right) <==> SameDocument(left, right, false)
    decreases left
  {
    if Primitive(left) || Primitive(right) || left.Arr? != right.Arr? {
      return;
    }
    var a, b := SortStrings(OwnKeys(left)), SortStrings(OwnKeys(right));
    forall key
      ensures key in a <==> Own(left, key).Some?
      ensures key in b <==> Own(right, key).Some?
    {
      OwnKeysAreOwn(left, key);
      OwnKeysAreOwn(right, key);
      SortPermutes(OwnKeys(left), StringLeq);
      SortPermutes(OwnKeys(right), StringLeq);
    }
    forall key | Own(left, key).Some? && Own(right, key).Some?
      ensures SameJson(Own(left, key).value, Own(right, key).value)
         <==> SameDocument(Own(left, key).value, Own(right, key).value, false)
    {
      OwnKeysAreOwn(left, key);
      OwnKeysAreOwn(right, key);
      SameJsonMeaning(Own(left, key).value, Own(right, key).value);
    }
    if SameDocument(left, right, false) {
      OwnKeysDistinct(left);
      OwnKeysDistinct(right);
      forall key
        ensures key in OwnKeys(left) <==> key in OwnKeys(right)
      {
        OwnKeysAreOwn(left, key);
        OwnKeysAreOwn(right, key);
      }
      SameElementsSortEqual(OwnKeys(left), OwnKeys(right));
      assert forall i | 0 <= i < |a| :: a[i] in a;
    }
    if SameJson(left, right) {
      assert a == b;
      forall key
        ensures Own(left, key).Some? <==> Own(right, key).Some?
        ensures Own(left, key).Some? && Own(right, key).Some? ==>
                  SameDocument(Own(left, key).value, Own(right, key).value, false)
      {
        if Own(left, key).Some? {
          assert key in a;
        }
      }
    }
  }

  lemma ArrayElement(j: Json, i: nat)
    requires j.Arr?
    ensures Own(j, ToDecimal(i)) == if i < |j.items| then Some(j.items[i]) else None
  {
    PrintThenParse(i);
  }

  lemma ArraysFromDocument(left: Json, right: Json, signedZero: bool)
    requires left.Arr? && right.Arr? && SameDocument(left, right, signedZero)
    ensures |left.items| == |right.items|
    ensures forall i | 0 <= i < |left.items| :: SameDocument(left.items[i], right.items[i], signedZero)
  {
    ArrayElement(left, |right.items|);
    ArrayElement(right, |right.items|);
    ArrayElement(left, |left.items|);
    ArrayElement(right, |left.items|);
    forall i | 0 <= i < |left.items|
      ensures SameDocument(left.items[i], right.items[i], signedZero)
    {
      ArrayElement(left, i);
      ArrayElement(right, i);
      assert Own(left, ToDecimal(i)).Some?;
    }
  }

  lemma DocumentFromArrays(left: Json, right: Json, signedZero: bool)
    requires left.Arr? && right.Arr? && |left.items| == |right.items|
    requires forall i | 0 <= i < |left.items| :: SameDocument(left.items[i], right.items[i], signedZero)
    ensures SameDocument(left, right, signedZero)
  {
    forall key: string
      ensures Own(left, key).Some? <==> Own(right, key).Some?
      ensures Own(left, key).Some? && Own(right, key).Some? ==>
                SameDocument(Own(left, key).value, Own(right, key).value, signedZero)
    {
      if Own(left, key).Some? {
        assert Own(left, key).value == left.items[FromDecimal(key)];
      }
    }
  }

  lemma {:induction false} DeepStrictEqualMeaning(left: Json, right: Json)
    requires Valid(left) && Valid(right)
    ensures DeepStrictEqual(left, right) <==> SameDocument(left, right, true)
    decreases left
  {
    match (left, right) {
      case (Arr(xs), Arr(ys)) =>
        if SameDocument(left, right, true) {
          ArraysFromDocument(left, right, true);
        }
        forall i | 0 <= i < |xs| && |xs| == |ys|
          ensures DeepStrictEqual(xs[i], ys[i]) <==> SameDocument(xs[i], ys[i], true)
        {
          DeepStrictEqualMeaning(xs[i], ys[i]);
        }
        if DeepStrictEqual(left, right) {
          DocumentFromArrays(left, right, true);
        }
      case (Obj(xs), Obj(ys)) =>
        forall i | 0 <= i < |xs| && Own(right, xs[i].key).Some?
          ensures DeepStrictEqual(xs[i].value, Own(right, xs[i].key).value)
             <==> SameDocument(xs[i].value, Own(right, xs[i].key).value, true)
        {
          OwnKeysAreOwn(right, xs[i].key);
          DeepStrictEqualMeaning(xs[i].value, Own(right, xs[i].key).value);
        }
        forall i | 0 <= i < |xs|
          ensures Own(left, xs[i].key) == Some(xs[i].value)
        {
          assert Position(xs, xs[i].key) == i;
        }
        ObjectKeyCounts(left, right);
      case _ =>
    }
  }

  lemma KeySet(j: Json) returns (keys: set<string>)
    requires j.Obj? && Valid(j)
    ensures forall key :: key in keys <==> Own(j, key).Some?
    ensures |keys| == |j.members|
    ensures forall i | 0 <= i < |j.members| :: j.members[i].key in keys
  {
    keys := set key | key in OwnKeys(j);
    OwnKeysDistinct(j);
    DistinctSetSize(OwnKeys(j));
    forall key
      ensures key in keys <==> Own(j, key).Some?
    {
      OwnKeysAreOwn(j, key);
    }
    forall i | 0 <= i < |j.members|
      ensures j.members[i].key in keys
    {
      assert OwnKeys(j)[i] == j.members[i].key;
    }
  }

  /** With as many keys on both sides, one inclusion of the key sets is equality. */
  lemma ObjectKeyCounts(left: Json, right: Json)
    requires left.Obj? && right.Obj? && Valid(left) && Valid(right)
    ensures (forall key :: Own(left, key).Some? <==> Own(right, key).Some?)
       <==> && |left.members| == |right.members|
            && forall i | 0 <= i < |left.members| :: Own(right, left.members[i].key).Some?
  {
    var a := KeySet(left);
    var b := KeySet(right);
    if forall key :: Own(left, key).Some? <==> Own(right, key).Some? {
      assert a == b;
    }
    if |left.members| == |right.members| && forall i | 0 <= i < |left.members| :: Own(right, left.members[i].key).Some? {
      forall key | key in a
        ensures key in b
      {
        assert left.members[Position(left.members, key)].key == key;
      }
      SubsetOfSameSize(a, b);
    }
  }

  function PositiveZeros(j: Json): (r: Json)
    ensures Primitive(r) == Primitive(j) && r.Arr? == j.Arr?
  {
    match j
    case Num(v, _) => Num(v, false)
    case Arr(items) => Arr(seq(|items|, i requires 0 <= i < |items| => PositiveZeros(items[i])))
    case Obj(members) =>
      Obj(seq(|members|, i requires 0 <= i < |members| => Member(members[i].key, PositiveZeros(members[i].value))))
    case _ => j
  }

  lemma PositiveZerosOwn(j: Json, key: string)
    ensures Own(PositiveZeros(j), key)
         == if Own(j, key).Some? then Some(PositiveZeros(Own(j, key).value)) else None
  {
    if j.Obj? {
      SamePosition(j.members, PositiveZeros(j).members, key);
    }
  }

  lemma {:induction false} SamePosition(a: seq<Member>, b: seq<Member>, key: string)
    requires |a| == |b| && forall i | 0 <= i < |a| :: a[i].key == b[i].key
    ensures Position(a, key) == Position(b, key)
  {
    if a != [] {
      SamePosition(a[1..], b[1..], key);
    }
  }

  lemma {:induction false} PositiveZerosForget(left: Json, right: Json)
    ensures SameDocument(PositiveZeros(left), PositiveZeros(right), true) <==> SameDocument(left, right, false)
    decreases left
  {
    if !Primitive(left) && !Primitive(right) {
      forall key: string
        ensures Own(PositiveZeros(left), key).Some? == Own(left, key).Some?
        ensures Own(PositiveZeros(right), key).Some? == Own(right, key).Some?
        ensures Own(left, key).Some? && Own(right, key).Some? ==>
                  (SameDocument(Own(left, key).value, Own(right, key).value, false)
              <==> SameDocument(Own(PositiveZeros(left), key).value, Own(PositiveZeros(right), key).value, true))
      {
        PositiveZerosOwn(left, key);
        PositiveZerosOwn(right, key);
        if Own(left, key).Some? && Own(right, key).Some? {
          PositiveZerosForget(Own(left, key).value, Own(right, key).value);
        }
      }
    }
  }

  lemma {:induction false} PositiveZerosValid(j: Json)
    requires Valid(j)
    ensures Valid(PositiveZeros(j))
    decreases j
  {
    match j {
      case Arr(items) =>
        forall i | 0 <= i < |items|
          ensures Valid(PositiveZeros(items[i]))
        {
          PositiveZerosValid(items[i]);
        }
      case Obj(members) =>
        forall i | 0 <= i < |members|
          ensures Valid(PositiveZeros(members[i].value))
        {
          PositiveZerosValid(members[i].value);
        }
      case _ =>
    }
  }

  /**
   * The validator's equality and the evaluator's equality agree except on the sign of zero: sameJson accepts
   * exactly the pairs isDeepStrictEqual accepts once negative zeros are replaced.
   */
  lemma EqualitiesCompared(left: Json, right: Json)
    requires Valid(left) && Valid(right)
    ensures SameJson(left, right) <==> DeepStrictEqual(PositiveZeros(left), PositiveZeros(right))
    ensures DeepStrictEqual(left, right) ==> SameJson(left, right)
  {
    PositiveZerosValid(left);
    PositiveZerosValid(right);
    DeepStrictEqualMeaning(PositiveZeros(left), PositiveZeros(right));
    SameJsonMeaning(left, right);
    PositiveZerosForget(left, right);
    DeepStrictEqualMeaning(left, right);
    if DeepStrictEqual(left, right) {
      Weaken(left, right);
    }
  }

  lemma {:induction false} Weaken(left: Json, right: Json)
    requires SameDocument(left, right, true)
    ensures SameDocument(left, right, false)
    decreases left
  {
    if !Primitive(left) && !Primitive(right) {
      forall key: string | Own(left, key).Some? && Own(right, key).Some?
        ensures SameDocument(Own(left, key).value, Own(right, key).value, false)
      {
        Weaken(Own(left, key).value, Own(right, key).value);
      }
    }
  }

  /** The converse fails on the sign of zero. */
  lemma SignOfZero()
    ensures SameJson(Num(0.0, false), Num(0.0, true))
    ensures !DeepStrictEqual(Num(0.0, false), Num(0.0, true))
  {
  }
}
