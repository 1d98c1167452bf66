/**
 JSON pointers (RFC 6901, sections 3 and 4): how a captured value is addressed in a response.
 Text is a sequence of code units; the characters that matter are all ASCII.
 */
module JsonPointer {
  import opened Results

  const MAX_CAPTURED_VALUE_BYTES := 4096

  datatype PointerError = MustBeginWithSlash | InvalidEscape

  // ---- the encoding of section 3 ----

  function EscapeChar(c: char): string {
    if c == '~' then "~0" else if c == '/' then "~1" else [c]
  }

  function Escape(token: string): string {
    if token == [] then [] else EscapeChar(token[0]) + Escape(token[1..])
  }

  function EscapeAll(tokens: seq<string>): (parts: seq<string>)
    ensures |parts| == |tokens|
    ensures forall i :: 0 <= i < |tokens| ==> parts[i] == Escape(tokens[i])
  {
    if tokens == [] then [] else [Escape(tokens[0])] + EscapeAll(tokens[1..])
  }

  /** A slash before every part. */
  function JoinParts(parts: seq<string>): (text: string)
    ensures parts != [] ==> text != [] && text[0] == '/'
  {
    if parts == [] then [] else "/" + parts[0] + JoinParts(parts[1..])
  }

  /** The parts with a slash between them. */
  function Body(parts: seq<string>): (text: string)
    requires parts != []
    ensures JoinParts(parts)[1..] == text
  {
    parts[0] + JoinParts(parts[1..])
  }

  function Encode(tokens: seq<string>): string {
    JoinParts(EscapeAll(tokens))
  }

  /** The tilde at a position starts an escape sequence. */
  predicate EscapeAt(s: string, i: nat)
    requires i < |s|
  {
    s[i] == '~' ==> i + 1 < |s| && (s[i + 1] == '0' || s[i + 1] == '1')
  }

  predicate EscapesValid(s: string) {
    forall i :: 0 <= i < |s| ==> EscapeAt(s, i)
  }

  predicate ValidPointer(pointer: string) {
    pointer != [] && pointer[0] == '/' && EscapesValid(pointer)
  }

  /** The first complaint is about the leading slash, any other about an escape. */
  method ValidateJSONPointer(pointer: string) returns (error: Option<PointerError>)
    ensures error.None? <==> ValidPointer(pointer)
    ensures error == Some(MustBeginWithSlash) <==> !("/" <= pointer)
  {
    if !("/" <= pointer) {
      return Some(MustBeginWithSlash);
    }
    var i := 0;
    while i < |pointer|
      invariant 0 <= i <= |pointer|
      invariant forall j :: 0 <= j < i ==> EscapeAt(pointer, j)
    {
      if pointer[i] != '~' {
        i := i + 1;
        continue;
      }
      if i + 1 >= |pointer| || (pointer[i + 1] != '0' && pointer[i + 1] != '1') {
        assert !EscapeAt(pointer, i);
        return Some(InvalidEscape);
      }
      i := i + 2;
    }
    return None;
  }

  // ---- what the resolver does to a pointer ----

  function Split(s: string): (parts: seq<string>)
    ensures parts != []
  {
    if s == [] then [[]]
    else
      var rest := Split(s[1..]);
      if s[0] == '/' then [[]] + rest else [[s[0]] + rest[0]] + rest[1..]
  }

  /** Every occurrence of a tilde and a digit replaced, left to right without overlap. */
  function ReplaceAll(s: string, digit: char, replacement: char): string {
    if s == [] then []
    else if s[0] == '~' && |s| > 1 && s[1] == digit then [replacement] + ReplaceAll(s[2..], digit, replacement)
    else [s[0]] + ReplaceAll(s[1..], digit, replacement)
  }

  function Unescape(encoded: string): string {
    ReplaceAll(ReplaceAll(encoded, '1', '/'), '0', '~')
  }

  function UnescapeAll(parts: seq<string>): (tokens: seq<string>)
    ensures |tokens| == |parts|
    ensures forall i :: 0 <= i < |parts| ==> tokens[i] == Unescape(parts[i])
  {
    if parts == [] then [] else [Unescape(parts[0])] + UnescapeAll(parts[1..])
  }

  function Tokens(pointer: string): seq<string>
    requires pointer != []
  {
    UnescapeAll(Split(pointer[1..]))
  }

  /** One pass over the token from left to right, as section 4 describes the decoding. */
  function Decode(s: string): string {
    if s == [] then []
    else if s[0] == '~' && |s| > 1 && s[1] == '1' then "/" + Decode(s[2..])
    else if s[0] == '~' && |s| > 1 && s[1] == '0' then "~" + Decode(s[2..])
    else [s[0]] + Decode(s[1..])
  }

  /** The first pass never brings a zero to the front. */
  lemma FirstKept(s: string)
    ensures var after := ReplaceAll(s, '1', '/');
            after != [] && after[0] == '0' ==> s != [] && s[0] == '0'
  {
  }

  /** The two replacements in this order never decode a character twice, whatever the text. */
  lemma {:induction false} TwoPassesDecode(s: string)
    ensures Unescape(s) == Decode(s)
  {
    if s != [] {
      var first := ReplaceAll(s, '1', '/');
      if s[0] == '~' && |s| > 1 && s[1] == '1' {
        TwoPassesDecode(s[2..]);
        assert first[1..] == ReplaceAll(s[2..], '1', '/');
      } else if s[0] == '~' && |s| > 1 && s[1] == '0' {
        TwoPassesDecode(s[2..]);
        var rest := ReplaceAll(s[1..], '1', '/');
        assert s[1..][1..] == s[2..] && rest == "0" + ReplaceAll(s[2..], '1', '/');
        assert first == "~" + rest && first[2..] == ReplaceAll(s[2..], '1', '/');
      } else {
        TwoPassesDecode(s[1..]);
        assert first[1..] == ReplaceAll(s[1..], '1', '/');
        FirstKept(s[1..]);
      }
    }
  }

  function SwappedUnescape(encoded: string): string {
    ReplaceAll(ReplaceAll(encoded, '0', '~'), '1', '/')
  }

  predicate EscapedTilde1At(s: string, i: nat) {
    i + 2 < |s| && s[i] == '~' && s[i + 1] == '0' && s[i + 2] == '1'
  }

  /** The text holds the encoding of a tilde followed by a one. */
  predicate HasEscapedTilde1(s: string) {
    exists i: nat :: i < |s| && EscapedTilde1At(s, i)
  }

  lemma HasAfterFirst(s: string)
    requires s != []
    ensures HasEscapedTilde1(s) <==> EscapedTilde1At(s, 0) || HasEscapedTilde1(s[1..])
  {
    if HasEscapedTilde1(s) {
      var i: nat :| i < |s| && EscapedTilde1At(s, i);
      assert i > 0 ==> EscapedTilde1At(s[1..], i - 1);
    }
    if HasEscapedTilde1(s[1..]) {
      var i: nat :| i < |s[1..]| && EscapedTilde1At(s[1..], i);
      assert EscapedTilde1At(s, i + 1);
    }
  }

  /** The pass over "~0" never brings a one to the front, nor takes one away. */
  lemma FirstOneKept(s: string)
    ensures var after := ReplaceAll(s, '0', '~');
            (after != [] && after[0] == '1') <==> (s != [] && s[0] == '1')
  {
  }

  lemma SameRest(c: char, a: string, b: string)
    ensures [c] + a == [c] + b <==> a == b
  {
    assert ([c] + a)[1..] == a && ([c] + b)[1..] == b;
  }

  lemma SwappedSlash(s: string)
    requires |s| > 1 && s[0] == '~' && s[1] == '1'
    ensures SwappedUnescape(s) == "/" + SwappedUnescape(s[2..])
  {
    var rest := ReplaceAll(s[2..], '0', '~');
    assert s[1..][1..] == s[2..] && ReplaceAll(s[1..], '0', '~') == "1" + rest;
    assert ReplaceAll(s, '0', '~') == "~" + ("1" + rest);
    assert ("~" + ("1" + rest))[2..] == rest;
  }

  /** Exactly where the order of the passes matters: swapped, they would decode "~01" as a slash. */
  lemma {:induction false} OrderMattersExactly(s: string)
    ensures SwappedUnescape(s) == Decode(s) <==> !HasEscapedTilde1(s)
  {
    if s != [] {
      var first := ReplaceAll(s, '0', '~');
      HasAfterFirst(s);
      if s[0] == '~' && |s| > 1 && s[1] == '1' {
        HasAfterFirst(s[1..]);
        OrderMattersExactly(s[2..]);
        SwappedSlash(s);
        SameRest('/', SwappedUnescape(s[2..]), Decode(s[2..]));
      } else if s[0] == '~' && |s| > 1 && s[1] == '0' {
        HasAfterFirst(s[1..]);
        OrderMattersExactly(s[2..]);
        assert first[1..] == ReplaceAll(s[2..], '0', '~');
        FirstOneKept(s[2..]);
        if EscapedTilde1At(s, 0) {
          assert SwappedUnescape(s)[0] == '/' && Decode(s)[0] == '~';
        } else {
          assert s[1..][1..] == s[2..];
          assert SwappedUnescape(s) == "~" + SwappedUnescape(s[2..]);
          SameRest('~', SwappedUnescape(s[2..]), Decode(s[2..]));
        }
      } else {
        OrderMattersExactly(s[1..]);
        assert first[1..] == ReplaceAll(s[1..], '0', '~');
        FirstOneKept(s[1..]);
        assert SwappedUnescape(s) == [s[0]] + SwappedUnescape(s[1..]);
        SameRest(s[0], SwappedUnescape(s[1..]), Decode(s[1..]));
      }
    }
  }

  // ---- pointers and token lists correspond one to one ----

  lemma DecodeFirst(c: char, rest: string)
    ensures Decode(EscapeChar(c) + rest) == [c] + Decode(rest)
  {
    assert (EscapeChar(c) + rest)[|EscapeChar(c)|..] == rest;
  }

  lemma EscapeFirst(c: char, rest: string)
    ensures Escape([c] + rest) == EscapeChar(c) + Escape(rest)
  {
    assert ([c] + rest)[1..] == rest;
  }

  predicate PartValid(part: string) {
    EscapesValid(part) && '/' !in part
  }

  lemma ConcatValid(a: string, b: string)
    requires EscapesValid(a) && EscapesValid(b)
    ensures EscapesValid(a + b)
  {
    forall i | 0 <= i < |a + b| ensures EscapeAt(a + b, i) {
      if i < |a| {
        assert EscapeAt(a, i);
      } else {
        assert EscapeAt(b, i - |a|);
      }
    }
  }

  lemma {:induction false} EscapeDecodes(token: string)
    ensures Decode(Escape(token)) == token
    ensures PartValid(Escape(token))
  {
    if token != [] {
      EscapeDecodes(token[1..]);
      DecodeFirst(token[0], Escape(token[1..]));
      assert PartValid(EscapeChar(token[0]));
      ConcatValid(EscapeChar(token[0]), Escape(token[1..]));
    }
  }

  lemma TailValid(s: string, k: nat)
    requires EscapesValid(s) && k <= |s|
    ensures EscapesValid(s[k..])
  {
    assert forall i :: 0 <= i < |s| - k ==> EscapeAt(s, i + k) ==> EscapeAt(s[k..], i);
  }

  /** A text with valid escapes begins with the encoding of some character. */
  lemma FirstEncoded(s: string) returns (c: char, rest: string)
    requires PartValid(s) && s != []
    ensures s == EscapeChar(c) + rest
    ensures PartValid(rest) && |rest| < |s|
  {
    assert EscapeAt(s, 0);
    c := if s[0] != '~' then s[0] else if s[1] == '1' then '/' else '~';
    rest := s[|EscapeChar(c)|..];
    TailValid(s, |EscapeChar(c)|);
  }

  lemma {:induction false} DecodeEscapes(s: string)
    requires PartValid(s)
    ensures Escape(Decode(s)) == s
    decreases |s|
  {
    if s != [] {
      var c, rest := FirstEncoded(s);
      DecodeEscapes(rest);
      DecodeFirst(c, rest);
      EscapeFirst(c, Decode(rest));
    }
  }

  lemma {:induction false} JoinedValid(parts: seq<string>)
    requires forall i :: 0 <= i < |parts| ==> PartValid(parts[i])
    ensures EscapesValid(JoinParts(parts))
  {
    if parts != [] {
      JoinedValid(parts[1..]);
      assert PartValid(parts[0]);
      ConcatValid("/", parts[0]);
      ConcatValid("/" + parts[0], JoinParts(parts[1..]));
    }
  }

  lemma {:induction false} SplitWhole(part: string)
    requires '/' !in part
    ensures Split(part) == [part]
  {
    if part != [] {
      SplitWhole(part[1..]);
      assert part == [part[0]] + part[1..];
    }
  }

  lemma {:induction false} SplitFirst(part: string, rest: string)
    requires '/' !in part
    ensures Split(part + "/" + rest) == [part] + Split(rest)
  {
    var s := part + "/" + rest;
    if part == [] {
      assert s[1..] == rest;
    } else {
      assert s[1..] == part[1..] + "/" + rest;
      SplitFirst(part[1..], rest);
      assert part == [part[0]] + part[1..];
      assert Split(s)[1..] == Split(rest);
    }
  }

  lemma BodySplits(parts: seq<string>)
    requires |parts| > 1
    ensures Body(parts) == parts[0] + "/" + Body(parts[1..])
  {
    var joined := JoinParts(parts[1..]);
    assert joined == [joined[0]] + joined[1..];
    assert parts[0] + ("/" + Body(parts[1..])) == parts[0] + "/" + Body(parts[1..]);
  }

  lemma {:induction false} SplitJoined(parts: seq<string>)
    requires parts != []
    requires forall i :: 0 <= i < |parts| ==> '/' !in parts[i]
    ensures Split(Body(parts)) == parts
  {
    if |parts| == 1 {
      assert Body(parts) == parts[0];
      SplitWhole(parts[0]);
    } else {
      var rest := parts[1..];
      SplitJoined(rest);
      BodySplits(parts);
      SplitFirst(parts[0], Body(rest));
      assert parts == [parts[0]] + rest;
    }
  }

  /** Encoding then splitting and unescaping returns every nonempty token list. */
  lemma TokensOfEncoding(tokens: seq<string>)
    requires tokens != []
    ensures ValidPointer(Encode(tokens))
    ensures Tokens(Encode(tokens)) == tokens
  {
    var parts := EscapeAll(tokens);
    forall i | 0 <= i < |tokens| ensures PartValid(parts[i]) && Unescape(parts[i]) == tokens[i] {
      EscapeDecodes(tokens[i]);
      TwoPassesDecode(parts[i]);
    }
    JoinedValid(parts);
    SplitJoined(parts);
  }

  lemma {:induction false} PartsJoin(s: string)
    ensures Body(Split(s)) == s
  {
    if s != [] {
      var rest := Split(s[1..]);
      PartsJoin(s[1..]);
      if s[0] == '/' {
        assert ([[]] + rest)[1..] == rest && JoinParts(rest) == "/" + Body(rest);
      } else {
        assert ([[s[0]] + rest[0]] + rest[1..])[1..] == rest[1..];
      }
    }
  }

  lemma Prepend(c: char, part: string)
    requires PartValid(part) && c != '/'
    requires c == '~' ==> part != [] && (part[0] == '0' || part[0] == '1')
    ensures PartValid([c] + part)
  {
    assert forall i :: 1 <= i < |part| + 1 ==> EscapeAt(part, i - 1) ==> EscapeAt([c] + part, i);
  }

  lemma FirstPartStarts(s: string)
    ensures s != [] && s[0] != '/' ==> Split(s)[0] != [] && Split(s)[0][0] == s[0]
  {
  }

  /** The parts of a text with valid escapes have valid escapes. */
  lemma {:induction false} PartsOfValid(s: string)
    requires EscapesValid(s)
    ensures forall i :: 0 <= i < |Split(s)| ==> PartValid(Split(s)[i])
  {
    if s != [] {
      var tail := s[1..];
      TailValid(s, 1);
      PartsOfValid(tail);
      assert EscapeAt(s, 0);
      if s[0] != '/' {
        FirstPartStarts(tail);
        Prepend(s[0], Split(tail)[0]);
      }
    }
  }

  lemma EscapeUnescaped(parts: seq<string>)
    requires forall i :: 0 <= i < |parts| ==> PartValid(parts[i])
    ensures EscapeAll(UnescapeAll(parts)) == parts
  {
    forall i | 0 <= i < |parts| ensures Escape(Unescape(parts[i])) == parts[i] {
      TwoPassesDecode(parts[i]);
      DecodeEscapes(parts[i]);
    }
  }

  /** What validation accepts is exactly what some nonempty token list encodes to, and only that one. */
  lemma ValidatedExactly(pointer: string)
    ensures ValidPointer(pointer) <==> pointer != [] && Tokens(pointer) != [] && Encode(Tokens(pointer)) == pointer
  {
    if ValidPointer(pointer) {
      var body := pointer[1..];
      TailValid(pointer, 1);
      PartsOfValid(body);
      PartsJoin(body);
      EscapeUnescaped(Split(body));
      assert pointer == "/" + body && JoinParts(Split(body)) == "/" + body;
    } else if pointer != [] && Encode(Tokens(pointer)) == pointer {
      TokensOfEncoding(Tokens(pointer));
    }
  }

  lemma EncodeInjective(a: seq<string>, b: seq<string>)
    requires Encode(a) == Encode(b)
    ensures a == b
  {
    if a != [] && b != [] {
      TokensOfEncoding(a);
      TokensOfEncoding(b);
    }
  }

  // ---- walking a document ----

  datatype JSON = Object(members: map<string, JSON>) | Array(items: seq<JSON>) | Text(text: string) | Scalar(number: string)

  datatype ResolveError = Missing | InvalidIndex(token: string) | NotAContainer(token: string)

  datatype CaptureError = Unresolved(cause: ResolveError) | NotText | EmptyText | TooLong

  function Descend(node: JSON, token: string, atoi: string -> Option<int>): Result<JSON, ResolveError> {
    match node
    case Object(members) => if token in members then Ok(members[token]) else Err(Missing)
    case Array(items) =>
      var index := atoi(token);
      if index.Some? && 0 <= index.value < |items| then Ok(items[index.value]) else Err(InvalidIndex(token))
    case _ => Err(NotAContainer(token))
  }

  function Walk(node: JSON, tokens: seq<string>, atoi: string -> Option<int>): Result<JSON, ResolveError> {
    if tokens == [] then Ok(node)
    else
      var next := Descend(node, tokens[0], atoi);
      if next.Err? then next else Walk(next.value, tokens[1..], atoi)
  }

  /** `atoi` is strconv.Atoi; the caller has validated the pointer, so it is not empty. */
  method ResolveJSONPointer(document: JSON, pointer: string, atoi: string -> Option<int>)
    returns (result: Result<JSON, ResolveError>)
    requires pointer != []
    ensures result == Walk(document, Tokens(pointer), atoi)
  {
    var current, parts := document, Split(pointer[1..]);
    for i := 0 to |parts|
      invariant Walk(document, Tokens(pointer), atoi) == Walk(current, Tokens(pointer)[i..], atoi)
    {
      var token := ReplaceAll(ReplaceAll(parts[i], '1', '/'), '0', '~');
      assert Tokens(pointer)[i..][0] == token && Tokens(pointer)[i..][1..] == Tokens(pointer)[i + 1..];
      match current {
        case Object(members) =>
          if token !in members {
            return Err(Missing);
          }
          current := members[token];
        case Array(items) =>
          var index := atoi(token);
          if index.None? || index.value < 0 || index.value >= |items| {
            return Err(InvalidIndex(token));
          }
          current := items[index.value];
        case _ =>
          return Err(NotAContainer(token));
      }
    }
    return Ok(current);
  }

  /** The value captured from a decoded response body. */
  method CaptureString(document: JSON, pointer: string, atoi: string -> Option<int>)
    returns (captured: Result<string, CaptureError>)
    requires pointer != []
    ensures forall text :: captured == Ok(text) <==>
              Walk(document, Tokens(pointer), atoi) == Ok(Text(text)) && 1 <= |text| <= 4096
    ensures forall cause :: captured == Err(Unresolved(cause)) <==> Walk(document, Tokens(pointer), atoi) == Err(cause)
    ensures captured == Err(EmptyText) <==> Walk(document, Tokens(pointer), atoi) == Ok(Text(""))
    ensures captured == Err(NotText) <==>
              Walk(document, Tokens(pointer), atoi).Ok? && !Walk(document, Tokens(pointer), atoi).value.Text?
  {
    var value := ResolveJSONPointer(document, pointer, atoi);
    if value.Err? {
      return Err(Unresolved(value.error));
    }
    if !value.value.Text? {
      return Err(NotText);
    }
    var text := value.value.text;
    if text == "" {
      return Err(EmptyText);
    }
    if |text| > MAX_CAPTURED_VALUE_BYTES {
      return Err(TooLong);
    }
    return Ok(text);
  }

  // ---- pointers address exactly the nodes of a document ----

  /** A step from a node to one of its children. */
  datatype Edge = Member(key: string) | Item(index: nat)

  function Child(node: JSON, edge: Edge): Option<JSON> {
    if edge.Member? then
      if node.Object? && edge.key in node.members then Some(node.members[edge.key]) else None
    else
      if node.Array? && edge.index < |node.items| then Some(node.items[edge.index]) else None
  }

  function At(node: JSON, path: seq<Edge>): Option<JSON> {
    if path == [] then Some(node)
    else
      var child := Child(node, path[0]);
      if child.None? then None else At(child.value, path[1..])
  }

  function Names(path: seq<Edge>, itoa: nat -> string): (names: seq<string>)
    ensures |names| == |path|
  {
    if path == [] then []
    else [if path[0].Member? then path[0].key else itoa(path[0].index)] + Names(path[1..], itoa)
  }

  lemma {:induction false} WalkFollowsPath(node: JSON, path: seq<Edge>, atoi: string -> Option<int>, itoa: nat -> string)
    requires forall n: nat :: atoi(itoa(n)) == Some(n)
    requires At(node, path).Some?
    ensures Walk(node, Names(path, itoa), atoi) == Ok(At(node, path).value)
  {
    if path != [] {
      WalkFollowsPath(Child(node, path[0]).value, path[1..], atoi, itoa);
      assert Names(path, itoa)[1..] == Names(path[1..], itoa);
    }
  }

  /** Every node below the root has a pointer that passes validation and resolves to it. */
  lemma EveryNodeAddressable(document: JSON, path: seq<Edge>, atoi: string -> Option<int>, itoa: nat -> string)
    requires forall n: nat :: atoi(itoa(n)) == Some(n)
    requires path != [] && At(document, path).Some?
    ensures var pointer := Encode(Names(path, itoa));
            ValidPointer(pointer) && Walk(document, Tokens(pointer), atoi) == Ok(At(document, path).value)
  {
    TokensOfEncoding(Names(path, itoa));
    WalkFollowsPath(document, path, atoi, itoa);
  }

  /** Whatever a pointer resolves to is a node of the document, one level per token down. */
  lemma {:induction false} OnlyNodesResolve(node: JSON, tokens: seq<string>, atoi: string -> Option<int>) returns (path: seq<Edge>)
    requires Walk(node, tokens, atoi).Ok?
    ensures |path| == |tokens| && At(node, path) == Some(Walk(node, tokens, atoi).value)
  {
    path := [];
    if tokens != [] {
      var edge := if node.Object? then Member(tokens[0]) else Item(atoi(tokens[0]).value);
      var rest := OnlyNodesResolve(Descend(node, tokens[0], atoi).value, tokens[1..], atoi);
      path := [edge] + rest;
      assert path[1..] == rest;
    }
  }

  /** What is wrong with a token at a node that has no such child. */
  predicate Refuses(node: JSON, token: string, atoi: string -> Option<int>, error: ResolveError) {
    match error
    case Missing => node.Object? && token !in node.members
    case InvalidIndex(refused) =>
      refused == token && node.Array? && !(atoi(token).Some? && 0 <= atoi(token).value < |node.items|)
    case NotAContainer(refused) => refused == token && !node.Object? && !node.Array?
  }

  /** A pointer that does not resolve is refused at the first token without a child of that name. */
  lemma {:induction false} RefusedAtFirst(node: JSON, tokens: seq<string>, atoi: string -> Option<int>) returns (path: seq<Edge>)
    requires Walk(node, tokens, atoi).Err?
    ensures |path| < |tokens| && At(node, path).Some?
    ensures Walk(node, tokens[..|path|], atoi) == Ok(At(node, path).value)
    ensures Refuses(At(node, path).value, tokens[|path|], atoi, Walk(node, tokens, atoi).error)
  {
    path := [];
    var next := Descend(node, tokens[0], atoi);
    if next.Ok? {
      var edge := if node.Object? then Member(tokens[0]) else Item(atoi(tokens[0]).value);
      var rest := RefusedAtFirst(next.value, tokens[1..], atoi);
      path := [edge] + rest;
      assert path[1..] == rest && tokens[..|path|][1..] == tokens[1..][..|rest|];
    }
  }
}
