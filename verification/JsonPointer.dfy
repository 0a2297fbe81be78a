/** JSON Pointer (RFC 6901): acceptance, token decoding and the program's two independent evaluators. */
module JsonPointer {
  import opened Common
  import opened Decimals
  import opened Json

  // ----- Splitting and joining on a separator -----

  function Split(s: string, separator: char): (parts: seq<string>)
    ensures parts != []
  {
    if s == [] then [""]
    else
      var rest := Split(s[1..], separator);
      if s[0] == separator then [""] + rest else [[s[0]] + rest[0]] + rest[1..]
  }

  function Join(parts: seq<string>, separator: char): string {
    if parts == [] then ""
    else if |parts| == 1 then parts[0]
    else parts[0] + [separator] + Join(parts[1..], separator)
  }

  lemma {:induction false} JoinSplit(s: string, separator: char)
    ensures Join(Split(s, separator), separator) == s
    ensures forall i | 0 <= i < |Split(s, separator)| :: separator !in Split(s, separator)[i]
  {
    if s != [] {
      JoinSplit(s[1..], separator);
      var parts, rest := Split(s, separator), Split(s[1..], separator);
      assert parts[1..] == if s[0] == separator then rest else rest[1..];
    }
  }

  lemma {:induction false} SplitPrefix(part: string, s: string, separator: char)
    requires separator !in part
    ensures Split(part + [separator] + s, separator) == [part] + Split(s, separator)
    ensures Split(part, separator) == [part]
  {
    var t := part + [separator] + s;
    if part == [] {
      assert t[1..] == s;
    } else {
      SplitPrefix(part[1..], s, separator);
      assert t[1..] == part[1..] + [separator] + s;
      assert part == [part[0]] + part[1..];
    }
  }

  lemma {:induction false} SplitJoin(parts: seq<string>, separator: char)
    requires parts != [] && forall i | 0 <= i < |parts| :: separator !in parts[i]
    ensures Split(Join(parts, separator), separator) == parts
  {
    if |parts| == 1 {
      SplitPrefix(parts[0], "", separator);
    } else {
      SplitJoin(parts[1..], separator);
      SplitPrefix(parts[0], Join(parts[1..], separator), separator);
    }
  }

  // ----- Escapes -----

  /** replace(/~d/g, out) */
  function ReplaceEscape(s: string, d: char, out: char): string {
    if s == [] then []
    else if |s| >= 2 && s[0] == '~' && s[1] == d then [out] + ReplaceEscape(s[2..], d, out)
    else [s[0]] + ReplaceEscape(s[1..], d, out)
  }

  /** The program's two passes: first every ~1, then every ~0. */
  function DecodeToken(token: string): string {
    ReplaceEscape(ReplaceEscape(token, '1', '/'), '0', '~')
  }

  /** One pass from left to right. */
  function DecodeOnePass(token: string): string {
    if token == [] then []
    else if |token| >= 2 && token[0] == '~' && token[1] == '0' then ['~'] + DecodeOnePass(token[2..])
    else if |token| >= 2 && token[0] == '~' && token[1] == '1' then ['/'] + DecodeOnePass(token[2..])
    else [token[0]] + DecodeOnePass(token[1..])
  }

  /** RFC 6901 section 3: ~ is written ~0 and / is written ~1. */
  function EscapeToken(key: string): string {
    if key == [] then []
    else (if key[0] == '~' then "~0" else if key[0] == '/' then "~1" else [key[0]]) + EscapeToken(key[1..])
  }

  predicate WellEscaped(s: string) {
    forall i | 0 <= i < |s| && s[i] == '~' :: i + 1 < |s| && s[i + 1] in {'0', '1'}
  }

  /** Two passes and one pass agree on every token, even a badly escaped one. */
  lemma {:induction false} TwoPassesAreOne(token: string)
    ensures DecodeToken(token) == DecodeOnePass(token)
  {
    var first := ReplaceEscape(token, '1', '/');
    if token == [] {
    } else if |token| >= 2 && token[0] == '~' && token[1] == '1' {
      TwoPassesAreOne(token[2..]);
      assert first[1..] == ReplaceEscape(token[2..], '1', '/');
    } else if |token| >= 2 && token[0] == '~' && token[1] == '0' {
      TwoPassesAreOne(token[2..]);
      assert token[1..][1..] == token[2..];
      assert ReplaceEscape(token[1..], '1', '/') == ['0'] + ReplaceEscape(token[2..], '1', '/');
      assert first == ['~', '0'] + ReplaceEscape(token[2..], '1', '/');
      assert first[2..] == ReplaceEscape(token[2..], '1', '/');
    } else {
      TwoPassesAreOne(token[1..]);
      var rest := ReplaceEscape(token[1..], '1', '/');
      assert first[1..] == rest;
      if token[0] == '~' && |token| >= 2 {
        assert rest[0] == token[1] || rest[0] == '/';
      }
    }
  }

  lemma {:induction false} EscapeThenDecode(key: string)
    ensures DecodeOnePass(EscapeToken(key)) == key
    ensures WellEscaped(EscapeToken(key)) && '/' !in EscapeToken(key)
  {
    if key != [] {
      EscapeThenDecode(key[1..]);
      var t := EscapeToken(key);
      if key[0] == '~' || key[0] == '/' {
        assert t[2..] == EscapeToken(key[1..]);
      } else {
        assert t[1..] == EscapeToken(key[1..]);
      }
    }
  }

  lemma {:induction false} DecodeThenEscape(token: string)
    requires WellEscaped(token) && '/' !in token
    ensures EscapeToken(DecodeOnePass(token)) == token
  {
    if token == [] {
    } else if token[0] == '~' {
      assert token == token[..2] + token[2..];
      forall i | 0 <= i < |token[2..]| && token[2..][i] == '~'
        ensures i + 1 < |token[2..]| && token[2..][i + 1] in {'0', '1'}
      {
        assert token[i + 2] == '~';
      }
      DecodeThenEscape(token[2..]);
      assert DecodeOnePass(token)[1..] == DecodeOnePass(token[2..]);
    } else {
      assert token == [token[0]] + token[1..];
      forall i | 0 <= i < |token[1..]| && token[1..][i] == '~'
        ensures i + 1 < |token[1..]| && token[1..][i + 1] in {'0', '1'}
      {
        assert token[i + 1] == '~';
      }
      DecodeThenEscape(token[1..]);
      assert DecodeOnePass(token)[1..] == DecodeOnePass(token[1..]);
    }
  }

  // ----- Pointers -----

  const MAX_POINTER_LENGTH: nat := 512

  /** parseJsonPointer: empty or starting with a slash, no stray ~, at most 512 characters. */
  predicate Accepted(pointer: string) {
    && |pointer| <= MAX_POINTER_LENGTH
    && (pointer == "" || pointer[0] == '/')
    && WellEscaped(pointer)
  }

  /** The decoded reference tokens of a pointer. */
  function Keys(pointer: string): seq<string> {
    if pointer == "" then []
    else
      var tokens := Split(pointer[1..], '/');
      seq(|tokens|, i requires 0 <= i < |tokens| => DecodeToken(tokens[i]))
  }

  /** The pointer text that addresses a list of keys. */
  function Pointer(keys: seq<string>): string {
    if keys == [] then ""
    else "/" + Join(seq(|keys|, i requires 0 <= i < |keys| => EscapeToken(keys[i])), '/')
  }

  lemma {:induction false} JoinWellEscaped(parts: seq<string>)
    requires forall i | 0 <= i < |parts| :: WellEscaped(parts[i])
    ensures WellEscaped(Join(parts, '/'))
  {
    if |parts| > 1 {
      JoinWellEscaped(parts[1..]);
      var rest, s := Join(parts[1..], '/'), Join(parts, '/');
      forall i | 0 <= i < |s| && s[i] == '~'
        ensures i + 1 < |s| && s[i + 1] in {'0', '1'}
      {
        if i < |parts[0]| {
          assert parts[0][i] == '~';
        } else {
          assert rest[i - |parts[0]| - 1] == '~';
        }
      }
    }
  }

  /** Every list of keys has an acceptable pointer, up to the length limit, and it decodes to those keys. */
  lemma PointerThenKeys(keys: seq<string>)
    ensures Keys(Pointer(keys)) == keys
    ensures Accepted(Pointer(keys)) <==> |Pointer(keys)| <= MAX_POINTER_LENGTH
  {
    if keys != [] {
      var tokens := seq(|keys|, i requires 0 <= i < |keys| => EscapeToken(keys[i]));
      forall i | 0 <= i < |keys|
        ensures WellEscaped(tokens[i]) && '/' !in tokens[i] && DecodeToken(tokens[i]) == keys[i]
      {
        EscapeThenDecode(keys[i]);
        TwoPassesAreOne(tokens[i]);
      }
      SplitJoin(tokens, '/');
      JoinWellEscaped(tokens);
      var p := Pointer(keys);
      assert p[1..] == Join(tokens, '/');
      forall i | 0 <= i < |p| && p[i] == '~'
        ensures i + 1 < |p| && p[i + 1] in {'0', '1'}
      {
        assert p[1..][i - 1] == '~';
      }
    }
  }

  lemma {:induction false} SplitWellEscaped(s: string)
    requires WellEscaped(s)
    ensures forall i | 0 <= i < |Split(s, '/')| :: WellEscaped(Split(s, '/')[i])
  {
    if s != [] {
      var tail := s[1..];
      forall i | 0 <= i < |tail| && tail[i] == '~'
        ensures i + 1 < |tail| && tail[i + 1] in {'0', '1'}
      {
        assert s[i + 1] == '~';
      }
      SplitWellEscaped(tail);
      var rest := Split(tail, '/');
      if s[0] != '/' {
        var token := [s[0]] + rest[0];
        if s[0] == '~' {
          assert tail[0] == s[1];
          assert rest[0][0] == tail[0];
        }
        forall i | 0 <= i < |token| && token[i] == '~'
          ensures i + 1 < |token| && token[i + 1] in {'0', '1'}
        {
          if i > 0 {
            assert rest[0][i - 1] == '~';
          }
        }
      }
    }
  }

  /** An accepted pointer is the pointer of its own keys: acceptance and addressing are inverse. */
  lemma KeysThenPointer(pointer: string)
    requires Accepted(pointer)
    ensures Pointer(Keys(pointer)) == pointer
  {
    if pointer != "" {
      var body := pointer[1..];
      var tokens := Split(body, '/');
      forall i | 0 <= i < |body| && body[i] == '~'
        ensures i + 1 < |body| && body[i + 1] in {'0', '1'}
      {
        assert pointer[i + 1] == '~';
      }
      SplitWellEscaped(body);
      JoinSplit(body, '/');
      var keys := Keys(pointer);
      var escaped := seq(|keys|, i requires 0 <= i < |keys| => EscapeToken(keys[i]));
      forall i | 0 <= i < |tokens|
        ensures escaped[i] == tokens[i]
      {
        TwoPassesAreOne(tokens[i]);
        DecodeThenEscape(tokens[i]);
      }
      assert escaped == tokens;
      assert pointer == "/" + body;
    }
  }

  // ----- Evaluation -----

  /** RFC 6901 section 4: follow one key after another. */
  function Evaluate(document: Json, keys: seq<string>): Option<Json> {
    if keys == [] then Some(document)
    else match Own(document, keys[0])
      case None => None
      case Some(value) => Evaluate(value, keys[1..])
  }

  function Lookup(document: Json, pointer: string): Option<Json> {
    Evaluate(document, Keys(pointer))
  }

  lemma {:induction false} EvaluateValid(document: Json, keys: seq<string>)
    requires Valid(document)
    ensures Evaluate(document, keys).Some? ==> Valid(Evaluate(document, keys).value)
  {
    if keys != [] && Own(document, keys[0]).Some? {
      OwnKeysAreOwn(document, keys[0]);
      EvaluateValid(Own(document, keys[0]).value, keys[1..]);
    }
  }

  /** Evaluation ends at an array because the next key is not an array index. */
  predicate StopsAtArray(document: Json, keys: seq<string>) {
    keys != [] &&
    match Own(document, keys[0])
    case Some(value) => StopsAtArray(value, keys[1..])
    case None => document.Arr? && !IsCanonical(keys[0])
  }

  datatype Resolution = Found(value: Json) | NotFound(invalidArrayToken: bool)

  const MAX_SAFE_INTEGER: nat := 9007199254740991

  /** resolveJsonPointer: the evaluator used on actual output files. */
  method ResolveJsonPointer(value: Json, pointer: string) returns (r: Resolution)
    requires Valid(value)
    ensures Lookup(value, pointer) == if r.Found? then Some(r.value) else None
    ensures r.NotFound? ==> r.invalidArrayToken == StopsAtArray(value, Keys(pointer))
  {
    if pointer == "" {
      return Found(value);
    }
    ghost var keys := Keys(pointer);
    var tokens := Split(pointer[1..], '/');
    var current := value;
    for i := 0 to |tokens|
      invariant |keys| == |tokens| && Valid(current)
      invariant Evaluate(value, keys) == Evaluate(current, keys[i..])
      invariant StopsAtArray(value, keys) == StopsAtArray(current, keys[i..])
    {
      var token := DecodeToken(tokens[i]);
      assert keys[i..][0] == token && keys[i..][1..] == keys[i + 1..];
      OwnKeysAreOwn(current, token);
      if current.Arr? {
        if !IsCanonical(token) {
          return NotFound(true);
        }
        var index := FromDecimal(token);
        if index > MAX_SAFE_INTEGER || index >= |current.items| {
          return NotFound(false);
        }
        current := current.items[index];
      } else {
        if Primitive(current) || Own(current, token).None? {
          return NotFound(false);
        }
        current := Own(current, token).value;
      }
    }
    return Found(current);
  }

  /** pointerValue: the evaluator used on declared replacement content; None is undefined. */
  method PointerValue(document: Json, pointer: string) returns (r: Option<Json>)
    ensures r == Lookup(document, pointer)
  {
    if pointer == "" {
      return Some(document);
    }
    ghost var keys := Keys(pointer);
    var tokens := Split(pointer[1..], '/');
    var value := document;
    for i := 0 to |tokens|
      invariant |keys| == |tokens|
      invariant Evaluate(document, keys) == Evaluate(value, keys[i..])
    {
      var key := DecodeToken(tokens[i]);
      assert keys[i..][0] == key && keys[i..][1..] == keys[i + 1..];
      if Primitive(value) || (value.Arr? && !IsCanonical(key)) || Own(value, key).None? {
        return None;
      }
      value := Own(value, key).value;
    }
    return Some(value);
  }

  /**
   * Every value inside a document is addressed by the pointer written from its keys, and both evaluators,
   * which compute Lookup, find it there.
   */
  lemma PointerAddresses(document: Json, keys: seq<string>)
    ensures Lookup(document, Pointer(keys)) == Evaluate(document, keys)
  {
    PointerThenKeys(keys);
  }
}
