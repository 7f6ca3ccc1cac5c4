/** JSON records as text. A tree keeps the white space and the spelling of every token, so a text is the print of
    exactly one tree; its value forgets them. What strings and numbers spell is a parameter. */
module JsonText {
  import opened Basics
  import opened ByteStrings

  const MAX_DEPTH: nat := 128

  const QUOTE: Byte := 0x22
  const BACKSLASH: Byte := 0x5C
  const COMMA: Byte := 0x2C
  const COLON: Byte := 0x3A
  const OPEN_ARRAY: Byte := 0x5B
  const CLOSE_ARRAY: Byte := 0x5D
  const OPEN_OBJECT: Byte := 0x7B
  const CLOSE_OBJECT: Byte := 0x7D
  const MINUS: Byte := 0x2D

  const NULL_WORD: seq<Byte> := [0x6E, 0x75, 0x6C, 0x6C]
  const TRUE_WORD: seq<Byte> := [0x74, 0x72, 0x75, 0x65]
  const FALSE_WORD: seq<Byte> := [0x66, 0x61, 0x6C, 0x73, 0x65]

  predicate IsBlank(b: Byte) {
    b == 0x20 || b == 0x09 || b == 0x0D || b == 0x0A
  }

  predicate IsDelimiter(b: Byte) {
    IsBlank(b) || b == COMMA || b == CLOSE_ARRAY || b == CLOSE_OBJECT
  }

  predicate StartsNumber(b: Byte) {
    b == MINUS || 0x30 <= b <= 0x39
  }

  /** Spaces, tabs and line ends only. */
  predicate AllBlank(s: seq<Byte>) {
    forall i :: 0 <= i < |s| ==> s[i] == 0x20 || s[i] == 0x09 || s[i] == 0x0A || s[i] == 0x0D
  }

  /** What a quoted string and a number token spell, if they are well formed. */
  datatype Lexer = Lexer(text: seq<Byte> -> Option<string>, number: seq<Byte> -> Option<string>)

  // ---------- trees, their text and their value ----------

  datatype Tree =
    | Null
    | Bool(value: bool)
    | Number(token: seq<Byte>)
    | Text(token: seq<Byte>)
    | Array(blank: seq<Byte>, items: seq<Item>)
    | Object(blank: seq<Byte>, members: seq<Member>)

  datatype Item = Item(before: seq<Byte>, tree: Tree, after: seq<Byte>)

  datatype Member = Member(
    before: seq<Byte>, key: seq<Byte>, beforeColon: seq<Byte>, afterColon: seq<Byte>, tree: Tree, after: seq<Byte>)

  function Print(tree: Tree): seq<Byte>
    decreases tree
  {
    match tree
    case Null => NULL_WORD
    case Bool(value) => if value then TRUE_WORD else FALSE_WORD
    case Number(token) => token
    case Text(token) => token
    case Array(blank, items) => [OPEN_ARRAY] + if items == [] then blank + [CLOSE_ARRAY] else PrintItems(items)
    case Object(blank, members) =>
      [OPEN_OBJECT] + if members == [] then blank + [CLOSE_OBJECT] else PrintMembers(members)
  }

  function PrintItems(items: seq<Item>): seq<Byte>
    requires items != []
    decreases items
  {
    var item := items[0];
    item.before + Print(item.tree) + item.after +
    if |items| == 1 then [CLOSE_ARRAY] else [COMMA] + PrintItems(items[1..])
  }

  function PrintMembers(members: seq<Member>): seq<Byte>
    requires members != []
    decreases members
  {
    var m := members[0];
    m.before + m.key + m.beforeColon + [COLON] + m.afterColon + Print(m.tree) + m.after +
    if |members| == 1 then [CLOSE_OBJECT] else [COMMA] + PrintMembers(members[1..])
  }

  datatype Json =
    | JNull
    | JBool(value: bool)
    | JNumber(number: string)
    | JString(text: string)
    | JArray(elements: seq<Json>)
    | JObject(entries: map<string, Json>)

  function Spelled(token: Option<string>): string {
    if token.Some? then token.value else ""
  }

  function ValueOf(tree: Tree, lexer: Lexer): Json
    decreases tree
  {
    match tree
    case Null => JNull
    case Bool(value) => JBool(value)
    case Number(token) => JNumber(Spelled(lexer.number(token)))
    case Text(token) => JString(Spelled(lexer.text(token)))
    case Array(_, items) => JArray(Elements(items, lexer))
    case Object(_, members) => JObject(Entries(members, lexer))
  }

  function Elements(items: seq<Item>, lexer: Lexer): (elements: seq<Json>)
    ensures |elements| == |items|
    decreases items
  {
    if items == [] then [] else [ValueOf(items[0].tree, lexer)] + Elements(items[1..], lexer)
  }

  function Entries(members: seq<Member>, lexer: Lexer): map<string, Json>
    decreases members
  {
    if members == [] then map[]
    else map[Spelled(lexer.text(members[0].key)) := ValueOf(members[0].tree, lexer)] + Entries(members[1..], lexer)
  }

  // ---------- tokens ----------

  /** Where the string that is open at `i` ends. */
  function StringEnd(s: seq<Byte>, i: nat, escaped: bool): (end: Option<nat>)
    ensures end.Some? ==> i < end.value <= |s|
    decreases |s| - i
  {
    if i >= |s| then None
    else if escaped then StringEnd(s, i + 1, false)
    else if s[i] == BACKSLASH then StringEnd(s, i + 1, true)
    else if s[i] == QUOTE then Some(i + 1)
    else StringEnd(s, i + 1, false)
  }

  predicate IsQuoted(token: seq<Byte>) {
    |token| >= 2 && token[0] == QUOTE && StringEnd(token, 1, false) == Some(|token|)
  }

  function NumberEnd(s: seq<Byte>, i: nat): (end: nat)
    requires i <= |s|
    ensures i <= end <= |s|
    decreases |s| - i
  {
    if i == |s| || IsDelimiter(s[i]) then i else NumberEnd(s, i + 1)
  }

  predicate IsNumberToken(token: seq<Byte>) {
    && token != [] && (token[0] == 0x2D || 0x30 <= token[0] <= 0x39)
    && forall i :: 0 <= i < |token| ==>
         token[i] !in [0x20, 0x09, 0x0A, 0x0D] && token[i] != 0x2C && token[i] != 0x5D && token[i] != 0x7D
  }

  // ---------- legal trees ----------

  /** The keys of the members, spelled out. */
  function Keys(members: seq<Member>, lexer: Lexer): set<string> {
    set i | 0 <= i < |members| :: Spelled(lexer.text(members[i].key))
  }

  predicate KeyToken(token: seq<Byte>, lexer: Lexer) {
    IsQuoted(token) && lexer.text(token).Some?
  }

  /** A tree that may stand inside `depth` containers: well-formed tokens, white space where it may be, no key twice,
      and no container too deep. */
  predicate Legal(tree: Tree, depth: nat, lexer: Lexer)
    decreases tree
  {
    match tree
    case Null => true
    case Bool(_) => true
    case Number(token) => IsNumberToken(token) && lexer.number(token).Some?
    case Text(token) => KeyToken(token, lexer)
    case Array(blank, items) =>
      && depth < 128 && AllBlank(blank) && (items != [] ==> blank == [])
      && forall i :: 0 <= i < |items| ==>
           && AllBlank(items[i].before) && AllBlank(items[i].after) && Legal(items[i].tree, depth + 1, lexer)
    case Object(blank, members) =>
      && depth < 128 && AllBlank(blank) && (members != [] ==> blank == []) && DistinctKeys(members, lexer)
      && forall i :: 0 <= i < |members| ==>
           && AllBlank(members[i].before) && AllBlank(members[i].beforeColon) && AllBlank(members[i].afterColon)
           && AllBlank(members[i].after) && KeyToken(members[i].key, lexer) && Legal(members[i].tree, depth + 1, lexer)
  }

  predicate DistinctKeys(members: seq<Member>, lexer: Lexer) {
    forall i, j :: 0 <= i < j < |members| ==> lexer.text(members[i].key) != lexer.text(members[j].key)
  }

  /** How many containers are nested in a tree. */
  function Depth(tree: Tree): nat
    decreases tree
  {
    match tree
    case Array(_, items) => 1 + DepthOfItems(items)
    case Object(_, members) => 1 + DepthOfMembers(members)
    case _ => 0
  }

  function DepthOfItems(items: seq<Item>): nat
    decreases items
  {
    if items == [] then 0 else Max(Depth(items[0].tree), DepthOfItems(items[1..]))
  }

  function DepthOfMembers(members: seq<Member>): nat
    decreases members
  {
    if members == [] then 0 else Max(Depth(members[0].tree), DepthOfMembers(members[1..]))
  }

  /** Legal trees nest at most as deep as is left. */
  lemma {:induction false} LegalDepth(tree: Tree, depth: nat, lexer: Lexer)
    requires Legal(tree, depth, lexer)
    ensures Depth(tree) == 0 || depth + Depth(tree) <= MAX_DEPTH
    decreases tree
  {
    match tree
    case Array(_, items) => LegalItemsDepth(items, depth + 1, lexer);
    case Object(_, members) => LegalMembersDepth(members, depth + 1, lexer);
    case _ =>
  }

  lemma {:induction false} LegalItemsDepth(items: seq<Item>, depth: nat, lexer: Lexer)
    requires depth <= MAX_DEPTH && forall i :: 0 <= i < |items| ==> Legal(items[i].tree, depth, lexer)
    ensures depth + DepthOfItems(items) <= MAX_DEPTH
    decreases items
  {
    if items != [] {
      LegalDepth(items[0].tree, depth, lexer);
      LegalItemsDepth(items[1..], depth, lexer);
    }
  }

  lemma {:induction false} LegalMembersDepth(members: seq<Member>, depth: nat, lexer: Lexer)
    requires depth <= MAX_DEPTH && forall i :: 0 <= i < |members| ==> Legal(members[i].tree, depth, lexer)
    ensures depth + DepthOfMembers(members) <= MAX_DEPTH
    decreases members
  {
    if members != [] {
      LegalDepth(members[0].tree, depth, lexer);
      LegalMembersDepth(members[1..], depth, lexer);
    }
  }

  // ---------- the grammar, read from the left ----------

  function Blanks(s: seq<Byte>): (n: nat)
    ensures n <= |s| && AllBlank(s[..n]) && (n < |s| ==> !IsBlank(s[n]))
  {
    if s == [] || !IsBlank(s[0]) then 0
    else
      var n := 1 + Blanks(s[1..]);
      assert s[..n] == [s[0]] + s[1..][..n - 1];
      n
  }

  /** A quoted string and what follows it. */
  function ReadText(s: seq<Byte>, lexer: Lexer): (r: Option<(seq<Byte>, seq<Byte>)>)
    ensures r.Some? ==> r.value.0 + r.value.1 == s && r.value.0 != []
  {
    if s == [] || s[0] != QUOTE then None
    else
      var end := StringEnd(s, 1, false);
      if end.None? || lexer.text(s[..end.value]).None? then None
      else Some((s[..end.value], s[end.value..]))
  }

  function ReadNumber(s: seq<Byte>, lexer: Lexer): (r: Option<(seq<Byte>, seq<Byte>)>)
    requires s != [] && StartsNumber(s[0])
    ensures r.Some? ==> r.value.0 + r.value.1 == s && r.value.0 != []
  {
    var end := NumberEnd(s, 0);
    if lexer.number(s[..end]).None? then None else assert end > 0; Some((s[..end], s[end..]))
  }

  /** A fixed word. */
  function ReadWord(s: seq<Byte>, word: seq<Byte>, tree: Tree): (r: Option<(Tree, seq<Byte>)>)
    requires word != []
    ensures r.Some? ==> |r.value.1| < |s|
  {
    if word <= s then Some((tree, s[|word|..])) else None
  }

  /** An array whose opening bracket has been read. */
  function ReadArray(s: seq<Byte>, depth: nat, lexer: Lexer): (r: Option<(Tree, seq<Byte>)>)
    ensures r.Some? ==> |r.value.1| < |s|
    decreases |s|, 4
  {
    var m := Blanks(s);
    if depth >= MAX_DEPTH then None
    else if m < |s| && s[m] == CLOSE_ARRAY then Some((Array(s[..m], []), s[m + 1..]))
    else
      var items := ReadItems(s, depth + 1, lexer);
      if items.None? then None else Some((Array([], items.value.0), items.value.1))
  }

  /** An object whose opening brace has been read. */
  function ReadObject(s: seq<Byte>, depth: nat, lexer: Lexer): (r: Option<(Tree, seq<Byte>)>)
    ensures r.Some? ==> |r.value.1| < |s|
    decreases |s|, 4
  {
    var m := Blanks(s);
    if depth >= MAX_DEPTH then None
    else if m < |s| && s[m] == CLOSE_OBJECT then Some((Object(s[..m], []), s[m + 1..]))
    else
      var members := ReadMembers(s, depth + 1, {}, lexer);
      if members.None? then None else Some((Object([], members.value.0), members.value.1))
  }

  function ReadToken(token: Option<(seq<Byte>, seq<Byte>)>, text: bool): Option<(Tree, seq<Byte>)> {
    if token.None? then None
    else Some((if text then Text(token.value.0) else Number(token.value.0), token.value.1))
  }

  /** A value that begins at once, and what follows it. */
  function ReadTree(s: seq<Byte>, depth: nat, lexer: Lexer): (r: Option<(Tree, seq<Byte>)>)
    requires s != []
    ensures r.Some? ==> |r.value.1| < |s|
    decreases |s|, 0
  {
    if s[0] == NULL_WORD[0] then ReadWord(s, NULL_WORD, Null)
    else if s[0] == TRUE_WORD[0] then ReadWord(s, TRUE_WORD, Bool(true))
    else if s[0] == FALSE_WORD[0] then ReadWord(s, FALSE_WORD, Bool(false))
    else if s[0] == QUOTE then ReadToken(ReadText(s, lexer), true)
    else if s[0] == OPEN_ARRAY then ReadArray(s[1..], depth, lexer)
    else if s[0] == OPEN_OBJECT then ReadObject(s[1..], depth, lexer)
    else if StartsNumber(s[0]) then ReadToken(ReadNumber(s, lexer), false)
    else None
  }

  /** A value after white space, and what follows it. */
  function ReadValue(s: seq<Byte>, depth: nat, lexer: Lexer): (r: Option<(seq<Byte>, Tree, seq<Byte>)>)
    ensures r.Some? ==> |r.value.2| < |s|
    decreases |s|, 1
  {
    var n := Blanks(s);
    if n == |s| then None
    else
      var tree := ReadTree(s[n..], depth, lexer);
      if tree.None? then None else Some((s[..n], tree.value.0, tree.value.1))
  }

  /** An item with the white space around it, and what follows. */
  function ReadItem(s: seq<Byte>, depth: nat, lexer: Lexer): (r: Option<(Item, seq<Byte>)>)
    ensures r.Some? ==> |r.value.1| < |s|
    decreases |s|, 2
  {
    var first := ReadValue(s, depth, lexer);
    if first.None? then None
    else
      var (before, tree, rest) := first.value;
      var a := Blanks(rest);
      Some((Item(before, tree, rest[..a]), rest[a..]))
  }

  function ReadItems(s: seq<Byte>, depth: nat, lexer: Lexer): (r: Option<(seq<Item>, seq<Byte>)>)
    ensures r.Some? ==> |r.value.1| < |s| && r.value.0 != []
    decreases |s|, 3
  {
    var first := ReadItem(s, depth, lexer);
    if first.None? then None
    else
      var (item, t) := first.value;
      if t == [] then None
      else if t[0] == CLOSE_ARRAY then Some(([item], t[1..]))
      else if t[0] != COMMA then None
      else
        var more := ReadItems(t[1..], depth, lexer);
        if more.None? then None else Some(([item] + more.value.0, more.value.1))
  }

  /** A key that is new, with the white space around it and its colon, and what follows. */
  function ReadKey(s: seq<Byte>, seen: set<string>,
                   lexer: Lexer): (r: Option<(seq<Byte>, seq<Byte>, seq<Byte>, seq<Byte>)>)
    ensures r.Some? ==> |r.value.3| < |s|
  {
    var n := Blanks(s);
    var key := ReadText(s[n..], lexer);
    if key.None? || Spelled(lexer.text(key.value.0)) in seen then None
    else
      var c := Blanks(key.value.1);
      var t := key.value.1[c..];
      if t == [] || t[0] != COLON then None else Some((s[..n], key.value.0, key.value.1[..c], t[1..]))
  }

  /** A member with the white space around it, and what follows. */
  function ReadMember(s: seq<Byte>, depth: nat, seen: set<string>, lexer: Lexer): (r: Option<(Member, seq<Byte>)>)
    ensures r.Some? ==> |r.value.1| < |s|
    decreases |s|, 2
  {
    var key := ReadKey(s, seen, lexer);
    if key.None? then None
    else
      var (before, token, beforeColon, t) := key.value;
      var value := ReadItem(t, depth, lexer);
      if value.None? then None
      else
        var item := value.value.0;
        Some((Member(before, token, beforeColon, item.before, item.tree, item.after), value.value.1))
  }

  function ReadMembers(s: seq<Byte>, depth: nat, seen: set<string>, lexer: Lexer): (r: Option<(seq<Member>, seq<Byte>)>)
    ensures r.Some? ==> |r.value.1| < |s| && r.value.0 != []
    decreases |s|, 3
  {
    var first := ReadMember(s, depth, seen, lexer);
    if first.None? then None
    else
      var (member, t) := first.value;
      if t == [] then None
      else if t[0] == CLOSE_OBJECT then Some(([member], t[1..]))
      else if t[0] != COMMA then None
      else
        var more := ReadMembers(t[1..], depth, seen + {Spelled(lexer.text(member.key))}, lexer);
        if more.None? then None else Some(([member] + more.value.0, more.value.1))
  }
}
