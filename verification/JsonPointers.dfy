/** JSON Pointers (sections 3 and 4 of RFC 6901): parsing and display are mutual inverses. */
module JsonPointers {
  import opened Basics

  datatype PointerError = MustStartWithSlash | InvalidEscape(tokenIndex: nat, offset: nat)

  type Token = string

  // ---------- display ----------

  function EscapeChar(c: char): string {
    if c == '~' then "~0" else if c == '/' then "~1" else [c]
  }

  function Escape(token: Token): string {
    if token == [] then [] else EscapeChar(token[0]) + Escape(token[1..])
  }

  function Show(tokens: seq<Token>): string {
    if tokens == [] then [] else ['/'] + Escape(tokens[0]) + Show(tokens[1..])
  }

  method Display(tokens: seq<Token>) returns (text: string)
    ensures text == Show(tokens)
  {
    text := [];
    for i := 0 to |tokens|
      invariant text + Show(tokens[i..]) == Show(tokens)
    {
      ghost var rest := Show(tokens[i + 1..]);
      assert tokens[i..][1..] == tokens[i + 1..];
      Regroup(text, ['/'] + Escape(tokens[i]), rest);
      Regroup(text, ['/'], Escape(tokens[i]));
      text := DisplayToken(text + ['/'], tokens[i]);
    }
    assert text + [] == text;
  }

  method DisplayToken(before: string, token: Token) returns (text: string)
    ensures text == before + Escape(token)
  {
    text := before;
    for k := 0 to |token|
      invariant text + Escape(token[k..]) == before + Escape(token)
    {
      assert token[k..][1..] == token[k + 1..];
      Regroup(text, EscapeChar(token[k]), Escape(token[k + 1..]));
      text := text + EscapeChar(token[k]);
    }
    assert text + [] == text;
  }

  // ---------- tokens ----------

  /** The bytes a character takes in UTF-8. */
  function Width(c: char): nat {
    if c as int < 0x80 then 1 else if c as int < 0x800 then 2 else if c as int < 0x1_0000 then 3 else 4
  }

  /** What an encoded token stands for, or at which byte an escape is wrong. */
  function Unescape(encoded: string): Result<Token, nat> {
    if encoded == [] then Success([])
    else if encoded[0] != '~' then After([encoded[0]], Width(encoded[0]), Unescape(encoded[1..]))
    else if |encoded| > 1 && encoded[1] == '0' then After(['~'], 2, Unescape(encoded[2..]))
    else if |encoded| > 1 && encoded[1] == '1' then After(['/'], 2, Unescape(encoded[2..]))
    else Failure(0)
  }

  /** A result after `head`, which took `n` bytes. */
  function After(head: Token, n: nat, rest: Result<Token, nat>): Result<Token, nat> {
    if rest.Success? then Success(head + rest.value) else Failure(n + rest.error)
  }

  lemma AfterAfter(a: Token, m: nat, b: Token, n: nat, rest: Result<Token, nat>)
    ensures After(a, m, After(b, n, rest)) == After(a + b, m + n, rest)
  {
    if rest.Success? {
      Regroup(a, b, rest.value);
    }
  }

  /** Decodes a token, character by character. */
  method DecodeToken(encoded: string, tokenIndex: nat) returns (r: Result<Token, PointerError>)
    ensures match Unescape(encoded)
            case Success(token) => r == Success(token)
            case Failure(offset) => r == Failure(InvalidEscape(tokenIndex, offset))
  {
    var decoded: Token := [];
    var i: nat, offset: nat := 0, 0;
    StartDecoding(encoded);
    while i < |encoded|
      invariant 0 <= i <= |encoded|
      invariant Unescape(encoded) == After(decoded, offset, Unescape(encoded[i..]))
    {
      hide After;
      var step := if encoded[i] != '~' then 1 else 2;
      var c := encoded[i];
      if encoded[i] == '~' {
        if i + 1 < |encoded| && encoded[i + 1] == '0' {
          c := '~';
        } else if i + 1 < |encoded| && encoded[i + 1] == '1' {
          c := '/';
        } else {
          BadEscape(decoded, offset);
          return Failure(InvalidEscape(tokenIndex, offset));
        }
      }
      assert encoded[i..][step..] == encoded[i + step..];
      var width := if encoded[i] != '~' then Width(c) else 2;
      AfterAfter(decoded, offset, [c], width, Unescape(encoded[i + step..]));
      decoded := decoded + [c];
      i, offset := i + step, offset + width;
    }
    assert encoded[i..] == [];
    StopDecoding(decoded, offset);
    return Success(decoded);
  }

  lemma StartDecoding(encoded: string)
    ensures Unescape(encoded) == After([], 0, Unescape(encoded[0..]))
  {
    assert encoded[0..] == encoded;
    var r := Unescape(encoded);
    if r.Success? {
      assert [] + r.value == r.value;
    }
  }

  lemma StopDecoding(decoded: Token, i: nat)
    ensures After(decoded, i, Unescape([])) == Success(decoded)
  {
    assert decoded + [] == decoded;
  }

  lemma BadEscape(decoded: Token, i: nat)
    ensures After(decoded, i, Failure(0)) == Failure(i)
  {
  }

  /** The character an encoded text begins with, and how many characters it takes. */
  function Leading(encoded: string): (char, nat)
    requires encoded != [] && Unescape(encoded).Success?
  {
    if encoded[0] != '~' then (encoded[0], 1) else if encoded[1] == '0' then ('~', 2) else ('/', 2)
  }

  /** Escaping undoes unescaping. */
  lemma {:induction false} EscapeOfUnescape(encoded: string)
    requires Unescape(encoded).Success? && '/' !in encoded
    ensures Escape(Unescape(encoded).value) == encoded
  {
    if encoded != [] {
      var (c, step) := Leading(encoded);
      var rest := encoded[step..];
      EscapeOfUnescape(rest);
      var token := Unescape(encoded).value;
      assert token == [c] + Unescape(rest).value;
      assert token[1..] == Unescape(rest).value;
      assert encoded[0] in encoded;
      assert encoded == encoded[..step] + rest;
      assert encoded[..step] == EscapeChar(c);
    }
  }

  /** Unescaping undoes escaping. */
  lemma {:induction false} UnescapeOfEscape(token: Token)
    ensures Unescape(Escape(token)) == Success(token) && '/' !in Escape(token)
  {
    if token != [] {
      var c, more := token[0], token[1..];
      UnescapeOfEscape(more);
      assert Escape(token) == EscapeChar(c) + Escape(more);
      UnescapesChar(c, Escape(more));
      assert token == [c] + more;
    }
  }

  /** An escaped character in front is unescaped first. */
  lemma UnescapesChar(c: char, more: string)
    ensures Unescape(EscapeChar(c) + more) == After([c], if |EscapeChar(c)| == 2 then 2 else Width(c), Unescape(more))
    ensures '/' !in EscapeChar(c)
  {
    hide After, Width;
    var head := EscapeChar(c);
    var encoded := head + more;
    assert encoded[|head|..] == more;
    assert encoded[0] == head[0] && (|head| == 2 ==> encoded[1] == head[1]);
  }

  // ---------- splitting ----------

  /** The parts of a text between slashes. */
  function Split(text: string): (parts: seq<string>)
    ensures parts != []
  {
    if text == [] then [[]]
    else
      var parts := Split(text[1..]);
      if text[0] == '/' then [[]] + parts else [[text[0]] + parts[0]] + parts[1..]
  }

  function JoinParts(parts: seq<string>): string
    requires parts != []
  {
    if |parts| == 1 then parts[0] else parts[0] + ['/'] + JoinParts(parts[1..])
  }

  predicate NoSlashes(parts: seq<string>) {
    forall k :: 0 <= k < |parts| ==> '/' !in parts[k]
  }

  lemma {:induction false} JoinOfSplit(text: string)
    ensures JoinParts(Split(text)) == text && NoSlashes(Split(text))
  {
    if text != [] {
      var parts := Split(text[1..]);
      JoinOfSplit(text[1..]);
      assert text == [text[0]] + text[1..];
      if text[0] == '/' {
        assert ([[]] + parts)[1..] == parts;
      } else {
        JoinLonger([text[0]], parts);
      }
    }
  }

  lemma JoinLonger(head: string, parts: seq<string>)
    requires parts != []
    ensures JoinParts([head + parts[0]] + parts[1..]) == head + JoinParts(parts)
  {
    var longer := [head + parts[0]] + parts[1..];
    assert longer[1..] == parts[1..];
    if |parts| > 1 {
      Regroup(head, parts[0], ['/'] + JoinParts(parts[1..]));
      Regroup(head + parts[0], ['/'], JoinParts(parts[1..]));
      Regroup(parts[0], ['/'], JoinParts(parts[1..]));
    }
  }

  lemma {:induction false} SplitOfJoin(parts: seq<string>)
    requires parts != [] && NoSlashes(parts)
    ensures Split(JoinParts(parts)) == parts
    decreases |parts|
  {
    if |parts| == 1 {
      SplitAfter(parts[0], []);
      assert parts[0] + [] == parts[0];
      assert parts == [parts[0]];
    } else {
      SplitOfJoin(parts[1..]);
      var rest := ['/'] + JoinParts(parts[1..]);
      assert rest[1..] == JoinParts(parts[1..]);
      SplitAfter(parts[0], rest);
      Regroup(parts[0], ['/'], JoinParts(parts[1..]));
      assert Split(rest) == [[]] + parts[1..];
      assert parts == [parts[0]] + parts[1..];
      assert parts[0] + [] == parts[0];
      assert ([[]] + parts[1..])[1..] == parts[1..];
    }
  }

  /** A text in front with no slash in it goes to the first part. */
  lemma {:induction false} SplitAfter(head: string, text: string)
    requires '/' !in head
    ensures Split(head + text) == [head + Split(text)[0]] + Split(text)[1..]
    decreases |head|
  {
    var parts := Split(text);
    if head == [] {
      assert head + text == text && head + parts[0] == parts[0];
      assert parts == [parts[0]] + parts[1..];
    } else {
      var c, more := head[0], head[1..];
      assert c in head;
      SplitAfter(more, text);
      assert (head + text)[1..] == more + text;
      assert [c] + (more + parts[0]) == head + parts[0];
      var inner := [more + parts[0]] + parts[1..];
      assert inner[1..] == parts[1..];
    }
  }

  // ---------- pointers ----------

  /** The tokens of the parts, the first of which has the given index. */
  function Decode(parts: seq<string>, index: nat): Result<seq<Token>, PointerError> {
    if parts == [] then Success([])
    else
      var first := Unescape(parts[0]);
      if first.Failure? then Failure(InvalidEscape(index, first.error))
      else
        var rest := Decode(parts[1..], index + 1);
        if rest.Failure? then rest else Success([first.value] + rest.value)
  }

  function Parsed(text: string): Result<seq<Token>, PointerError> {
    if text == [] then Success([])
    else if text[0] != '/' then Failure(MustStartWithSlash)
    else Decode(Split(text[1..]), 0)
  }

  /** A result with more tokens in front. */
  function Following(tokens: seq<Token>, rest: Result<seq<Token>, PointerError>): Result<seq<Token>, PointerError> {
    if rest.Failure? then rest else Success(tokens + rest.value)
  }

  method Parse(text: string) returns (r: Result<seq<Token>, PointerError>)
    ensures r == Parsed(text)
  {
    if text == [] {
      return Success([]);
    }
    if text[0] != '/' {
      return Failure(MustStartWithSlash);
    }
    var parts := Split(text[1..]);
    var tokens: seq<Token> := [];
    assert parts[0..] == parts;
    NothingFollowed(Decode(parts, 0));
    for i := 0 to |parts|
      invariant Decode(parts, 0) == Following(tokens, Decode(parts[i..], i))
    {
      var token := DecodeToken(parts[i], i);
      if token.Failure? {
        return Failure(token.error);
      }
      assert parts[i..][1..] == parts[i + 1..];
      FollowOn(tokens, token.value, Decode(parts[i + 1..], i + 1));
      tokens := tokens + [token.value];
    }
    assert tokens + [] == tokens;
    return Success(tokens);
  }

  lemma NothingFollowed(r: Result<seq<Token>, PointerError>)
    ensures Following([], r) == r
  {
    if r.Success? {
      assert [] + r.value == r.value;
    }
  }

  lemma FollowOn(tokens: seq<Token>, token: Token, rest: Result<seq<Token>, PointerError>)
    ensures Following(tokens, Following([token], rest)) == Following(tokens + [token], rest)
  {
    if rest.Success? {
      assert tokens + ([token] + rest.value) == tokens + [token] + rest.value;
    }
  }

  function EscapeAll(tokens: seq<Token>): (parts: seq<string>)
    ensures |parts| == |tokens|
  {
    if tokens == [] then [] else [Escape(tokens[0])] + EscapeAll(tokens[1..])
  }

  lemma {:induction false} ShowIsJoin(tokens: seq<Token>)
    requires tokens != []
    ensures Show(tokens) == ['/'] + JoinParts(EscapeAll(tokens))
  {
    var parts := EscapeAll(tokens);
    if |tokens| > 1 {
      ShowIsJoin(tokens[1..]);
      assert parts[1..] == EscapeAll(tokens[1..]);
      Regroup(['/'], Escape(tokens[0]), Show(tokens[1..]));
      Regroup(Escape(tokens[0]), ['/'], JoinParts(parts[1..]));
    } else {
      assert ['/'] + Escape(tokens[0]) + [] == ['/'] + Escape(tokens[0]);
    }
  }

  lemma {:induction false} DecodeOfEscape(tokens: seq<Token>, index: nat)
    ensures Decode(EscapeAll(tokens), index) == Success(tokens) && NoSlashes(EscapeAll(tokens))
  {
    hide Escape, Unescape;
    if tokens != [] {
      var parts := EscapeAll(tokens);
      DecodeOfEscape(tokens[1..], index + 1);
      UnescapeOfEscape(tokens[0]);
      assert parts[0] == Escape(tokens[0]) && parts[1..] == EscapeAll(tokens[1..]);
      assert tokens == [tokens[0]] + tokens[1..];
    }
  }

  lemma {:induction false} EscapeOfDecode(parts: seq<string>, index: nat)
    requires Decode(parts, index).Success? && NoSlashes(parts)
    ensures EscapeAll(Decode(parts, index).value) == parts
  {
    hide Escape, Unescape;
    if parts != [] {
      EscapeOfDecode(parts[1..], index + 1);
      EscapeOfUnescape(parts[0]);
      var tokens := Decode(parts, index).value;
      assert tokens[1..] == Decode(parts[1..], index + 1).value;
      assert parts == [parts[0]] + parts[1..];
    }
  }

  /** Parsing undoes display. */
  lemma ParseOfShow(tokens: seq<Token>)
    ensures Parsed(Show(tokens)) == Success(tokens)
  {
    if tokens != [] {
      ShowIsJoin(tokens);
      DecodeOfEscape(tokens, 0);
      SplitOfJoin(EscapeAll(tokens));
      assert Show(tokens)[1..] == JoinParts(EscapeAll(tokens));
    }
  }

  /** Display undoes parsing: a pointer has one text. */
  lemma ShowOfParse(text: string)
    requires Parsed(text).Success?
    ensures Show(Parsed(text).value) == text
  {
    if text != [] {
      var parts := Split(text[1..]);
      JoinOfSplit(text[1..]);
      EscapeOfDecode(parts, 0);
      ShowIsJoin(Parsed(text).value);
      assert text == ['/'] + text[1..];
    }
  }

  // ---------- the escapes of RFC 6901 ----------

  lemma {:induction false} EscapeAppend(a: Token, b: Token)
    ensures Escape(a + b) == Escape(a) + Escape(b)
  {
    if a == [] {
      assert a + b == b;
    } else {
      EscapeAppend(a[1..], b);
      assert (a + b)[1..] == a[1..] + b && (a + b)[0] == a[0];
      hide EscapeChar;
      Regroup(EscapeChar(a[0]), Escape(a[1..]), Escape(b));
    }
  }

  /** Wherever a character stands, a tilde is spelled ~0, a slash ~1, and any other character as itself. */
  lemma EscapeSpells(before: Token, c: char, after: Token)
    ensures Escape(before + [c] + after) ==
            Escape(before) + (if c == '~' then "~0" else if c == '/' then "~1" else [c]) + Escape(after)
  {
    EscapeAppend(before + [c], after);
    EscapeAppend(before, [c]);
    assert [c][1..] == [] && Escape([c]) == EscapeChar(c);
  }

  /** A tilde that begins neither ~0 nor ~1. */
  ghost predicate HasStrayTilde(s: string) {
    exists k :: IsStrayTilde(s, k)
  }

  lemma StrayLater(head: string, rest: string)
    requires HasStrayTilde(rest)
    ensures HasStrayTilde(head + rest)
  {
    var k :| IsStrayTilde(rest, k);
    assert IsStrayTilde(head + rest, |head| + k);
  }

  lemma StrayAfter(c: char, rest: string)
    ensures HasStrayTilde([c] + rest) <==>
            HasStrayTilde(rest) || (c == '~' && (rest == [] || (rest[0] != '0' && rest[0] != '1')))
  {
    var s := [c] + rest;
    if HasStrayTilde(rest) {
      StrayLater([c], rest);
    }
    if HasStrayTilde(s) && !(c == '~' && (rest == [] || (rest[0] != '0' && rest[0] != '1'))) {
      var k :| IsStrayTilde(s, k);
      assert IsStrayTilde(rest, k - 1);
    }
    if c == '~' && (rest == [] || (rest[0] != '0' && rest[0] != '1')) {
      assert IsStrayTilde(s, 0);
    }
  }

  lemma {:induction false} UnescapeRefuses(encoded: string)
    ensures Unescape(encoded).Failure? <==> HasStrayTilde(encoded)
    decreases |encoded|
  {
    if encoded != [] {
      var c, rest := encoded[0], encoded[1..];
      assert encoded == [c] + rest;
      StrayAfter(c, rest);
      if c == '~' && rest != [] && (rest[0] == '0' || rest[0] == '1') {
        assert rest == [rest[0]] + rest[1..] && encoded[2..] == rest[1..];
        StrayAfter(rest[0], rest[1..]);
        UnescapeRefuses(rest[1..]);
      } else {
        UnescapeRefuses(rest);
      }
    }
  }

  /** The number of bytes of a text in UTF-8. */
  function Utf8Length(s: string): nat {
    if s == [] then 0
    else
      var c := s[0] as int;
      (if c <= 0x7F then 1 else if c <= 0x7FF then 2 else if c <= 0xFFFF then 3 else 4) + Utf8Length(s[1..])
  }

  predicate IsStrayTilde(s: string, k: int) {
    0 <= k < |s| && s[k] == '~' && (k + 1 == |s| || (s[k + 1] != '0' && s[k + 1] != '1'))
  }

  /** The error of a token is the byte at which its first stray tilde stands. */
  lemma {:induction false} UnescapeErrorAt(encoded: string) returns (k: nat)
    requires Unescape(encoded).Failure?
    ensures IsStrayTilde(encoded, k) && forall j :: 0 <= j < k ==> !IsStrayTilde(encoded, j)
    ensures Unescape(encoded) == Failure(Utf8Length(encoded[..k]))
    decreases |encoded|
  {
    if encoded[0] != '~' {
      var rest := encoded[1..];
      var i := UnescapeErrorAt(rest);
      k := i + 1;
      assert encoded[..k][1..] == rest[..i];
      forall j | 0 <= j < k ensures !IsStrayTilde(encoded, j) {
        assert j > 0 ==> !IsStrayTilde(rest, j - 1);
      }
    } else if |encoded| > 1 && (encoded[1] == '0' || encoded[1] == '1') {
      var rest := encoded[2..];
      var i := UnescapeErrorAt(rest);
      k := i + 2;
      assert encoded[..k][1..][1..] == rest[..i];
      forall j | 0 <= j < k ensures !IsStrayTilde(encoded, j) {
        assert j > 1 ==> !IsStrayTilde(rest, j - 2);
      }
    } else {
      k := 0;
    }
  }

  ghost predicate AnyStrayTilde(parts: seq<string>) {
    exists i :: 0 <= i < |parts| && HasStrayTilde(parts[i])
  }

  lemma AnyStrayCons(first: string, rest: seq<string>)
    ensures AnyStrayTilde([first] + rest) <==> HasStrayTilde(first) || AnyStrayTilde(rest)
  {
    var parts := [first] + rest;
    if HasStrayTilde(first) {
      assert HasStrayTilde(parts[0]);
    }
    if AnyStrayTilde(rest) {
      var i :| 0 <= i < |rest| && HasStrayTilde(rest[i]);
      assert HasStrayTilde(parts[i + 1]);
    }
  }

  lemma {:induction false} DecodeRefuses(parts: seq<string>, index: nat)
    ensures Decode(parts, index).Failure? <==> AnyStrayTilde(parts)
  {
    hide HasStrayTilde;
    if parts != [] {
      assert parts == [parts[0]] + parts[1..];
      AnyStrayCons(parts[0], parts[1..]);
      UnescapeRefuses(parts[0]);
      DecodeRefuses(parts[1..], index + 1);
    }
  }

  lemma {:induction false} SplitKeepsTildes(text: string)
    ensures AnyStrayTilde(Split(text)) <==> HasStrayTilde(text)
    ensures Split(text)[0] == [] <==> text == [] || text[0] == '/'
    ensures text != [] && text[0] != '/' ==> Split(text)[0][0] == text[0]
  {
    hide HasStrayTilde;
    if text == [] {
      AnyStrayCons([], []);
      assert Split(text) == [[]] + [];
      NoStray();
    } else {
      var c, rest, parts := text[0], text[1..], Split(text[1..]);
      SplitKeepsTildes(rest);
      assert text == [c] + rest;
      StrayAfter(c, rest);
      assert parts == [parts[0]] + parts[1..];
      AnyStrayCons(parts[0], parts[1..]);
      if c == '/' {
        AnyStrayCons([], parts);
        NoStray();
      } else {
        AnyStrayCons([c] + parts[0], parts[1..]);
        StrayAfter(c, parts[0]);
      }
    }
  }

  lemma NoStray()
    ensures !HasStrayTilde([])
  {
  }

  /** A text is no pointer exactly when it is not empty and does not start with a slash, or has a stray tilde. */
  lemma ParseRefuses(text: string)
    ensures Parsed(text) == Failure(MustStartWithSlash) <==> text != [] && text[0] != '/'
    ensures Parsed(text).Failure? <==> text != [] && (text[0] != '/' || HasStrayTilde(text))
  {
    hide HasStrayTilde, Split;
    if text != [] && text[0] == '/' {
      DecodeRefuses(Split(text[1..]), 0);
      SplitKeepsTildes(text[1..]);
      StrayAfter('/', text[1..]);
      assert text == ['/'] + text[1..];
      DecodeErrors(Split(text[1..]), 0);
    }
  }

  lemma {:induction false} DecodeErrors(parts: seq<string>, index: nat)
    ensures Decode(parts, index) != Failure(MustStartWithSlash)
  {
    if parts != [] {
      DecodeErrors(parts[1..], index + 1);
    }
  }
}
