/** The record parser: a position moved over bytes by small methods, each proved to read what the grammar reads. */
module JsonParser {
  import opened Basics
  import opened ByteStrings
  import opened JsonText
  import opened JsonGrammar

  datatype ParseError = JsonParseError

  class Parser {
    const bytes: seq<Byte>
    const lexer: Lexer
    var position: nat

    ghost predicate Valid()
      reads this
    {
      position <= |bytes|
    }

    ghost function Rest(): seq<Byte>
      reads this
      requires Valid()
    {
      bytes[position..]
    }

    constructor (bytes: seq<Byte>, lexer: Lexer)
      ensures Valid() && this.bytes == bytes && this.lexer == lexer && Rest() == bytes
    {
      this.bytes, this.lexer, position := bytes, lexer, 0;
    }

    function Peek(): Option<Byte>
      reads this
      requires Valid()
    {
      if position < |bytes| then Some(bytes[position]) else None
    }

    method SkipWhitespace() returns (ghost blank: seq<Byte>)
      requires Valid()
      modifies this
      ensures Valid() && position >= old(position)
      ensures var n := Blanks(old(Rest())); blank == old(Rest())[..n] && Rest() == old(Rest())[n..]
    {
      hide Blanks;
      ghost var start := Rest();
      ghost var skipped := 0;
      while position < |bytes| && IsBlank(bytes[position])
        invariant position == old(position) + skipped && skipped <= |start| && Rest() == start[skipped..]
        invariant AllBlank(start[..skipped])
        decreases |bytes| - position
      {
        assert start[skipped] == bytes[position];
        assert start[..skipped + 1] == start[..skipped] + [start[skipped]];
        position, skipped := position + 1, skipped + 1;
      }
      assert start == start[..skipped] + start[skipped..];
      BlanksExact(start[..skipped], start[skipped..]);
      blank := start[..skipped];
    }

    method ConsumeIf(expected: Byte) returns (consumed: bool)
      requires Valid()
      modifies this
      ensures Valid()
      ensures consumed <==> old(Rest()) != [] && old(Rest())[0] == expected
      ensures Rest() == if consumed then old(Rest())[1..] else old(Rest())
      ensures position == old(position) + if consumed then 1 else 0
    {
      if Peek() != Some(expected) {
        return false;
      }
      position := position + 1;
      return true;
    }

    method ConsumeLiteral(word: seq<Byte>, tree: Tree) returns (r: Result<Json, ParseError>)
      requires Valid() && word != [] && (tree.Null? || tree.Bool?)
      modifies this
      ensures Valid() && position >= old(position) && Matches(r, ReadWord(old(Rest()), word, tree), this)
    {
      ghost var start := Rest();
      if position + |word| > |bytes| || bytes[position..position + |word|] != word {
        return Failure(JsonParseError);
      }
      assert start[..|word|] == word;
      position := position + |word|;
      assert Rest() == start[|word|..];
      return Success(ValueOf(tree, lexer));
    }

    method ParseString() returns (r: Result<string, ParseError>)
      requires Valid()
      modifies this
      ensures Valid() && position >= old(position)
      ensures r.Success? <==> ReadText(old(Rest()), lexer).Some?
      ensures r.Success? ==>
                var (token, rest) := ReadText(old(Rest()), lexer).value;
                r.value == Spelled(lexer.text(token)) && Rest() == rest && position > old(position)
    {
      ghost var s := Rest();
      var start := position;
      var quoted := ConsumeIf(QUOTE);
      if !quoted {
        return Failure(JsonParseError);
      }
      var escaped := false;
      while position < |bytes|
        invariant start < position <= |bytes|
        invariant StringEnd(s, 1, false) == StringEnd(s, position - start, escaped)
        decreases |bytes| - position
      {
        var byte := bytes[position];
        assert byte == s[position - start];
        position := position + 1;
        if escaped {
          escaped := false;
        } else if byte == BACKSLASH {
          escaped := true;
        } else if byte == QUOTE {
          var token := bytes[start..position];
          assert s[..position - start] == token && s[position - start..] == Rest();
          var text := lexer.text(token);
          if text.None? {
            return Failure(JsonParseError);
          }
          return Success(text.value);
        }
      }
      return Failure(JsonParseError);
    }

    method ParseNumber() returns (r: Result<Json, ParseError>)
      requires Valid() && Rest() != [] && StartsNumber(Rest()[0])
      modifies this
      ensures Valid() && position >= old(position) && Matches(r, ReadToken(ReadNumber(old(Rest()), lexer), false), this)
    {
      ghost var s := Rest();
      var start := position;
      while position < |bytes| && !IsDelimiter(bytes[position])
        invariant start <= position <= |bytes|
        invariant NumberEnd(s, 0) == NumberEnd(s, position - start)
        decreases |bytes| - position
      {
        assert bytes[position] == s[position - start];
        position := position + 1;
      }
      var token := bytes[start..position];
      assert position < |bytes| ==> bytes[position] == s[position - start];
      assert s[..position - start] == token && s[position - start..] == Rest();
      var number := lexer.number(token);
      if number.None? {
        return Failure(JsonParseError);
      }
      return Success(JNumber(number.value));
    }

    method ParseValue(depth: nat) returns (r: Result<Json, ParseError>)
      requires Valid()
      modifies this
      ensures Valid() && position >= old(position)
      ensures MatchesValue(r, ReadValue(old(Rest()), depth, lexer), this)
      decreases |bytes| - position, 1
    {
      ghost var s := Rest();
      ghost var blank := SkipWhitespace();
      if position == |bytes| {
        return Failure(JsonParseError);
      }
      r := ParseTree(depth);
    }

    method ParseTree(depth: nat) returns (r: Result<Json, ParseError>)
      requires Valid() && Rest() != []
      modifies this
      ensures Valid() && position >= old(position)
      ensures Matches(r, ReadTree(old(Rest()), depth, lexer), this)
      decreases |bytes| - position, 0
    {
      hide ReadArray, ReadObject, ReadText, ReadNumber;
      var byte := bytes[position];
      ghost var s := Rest();
      if byte == NULL_WORD[0] {
        r := ConsumeLiteral(NULL_WORD, Null);
      } else if byte == TRUE_WORD[0] {
        r := ConsumeLiteral(TRUE_WORD, Bool(true));
      } else if byte == FALSE_WORD[0] {
        r := ConsumeLiteral(FALSE_WORD, Bool(false));
      } else if byte == QUOTE {
        var text := ParseString();
        r := if text.Success? then Success(JString(text.value)) else Failure(JsonParseError);
      } else if byte == OPEN_ARRAY {
        position := position + 1;
        assert Rest() == s[1..];
        r := ParseArray(depth);
      } else if byte == OPEN_OBJECT {
        position := position + 1;
        assert Rest() == s[1..];
        r := ParseMap(depth);
      } else if StartsNumber(byte) {
        r := ParseNumber();
      } else {
        r := Failure(JsonParseError);
      }
    }

    /** An array whose opening bracket has been consumed. */
    method ParseArray(depth: nat) returns (r: Result<Json, ParseError>)
      requires Valid()
      modifies this
      ensures Valid() && position >= old(position)
      ensures Matches(r, ReadArray(old(Rest()), depth, lexer), this)
      decreases |bytes| - position, 3
    {
      hide ReadItems, Elements, ValueOf;
      ghost var s := Rest();
      if depth + 1 > MAX_DEPTH {
        return Failure(JsonParseError);
      }
      ghost var blank := SkipWhitespace();
      var closed := ConsumeIf(CLOSE_ARRAY);
      if closed {
        ArraysHaveElements(Array(blank, []), lexer);
        NoElements(s, depth, lexer);
        return Success(JArray([]));
      }
      r := ParseItems(depth + 1, s);
      if r.Success? {
        ArraysHaveElements(Array([], ReadItems(s, depth + 1, lexer).value.0), lexer);
      }
    }

    /** The items of an array up to its end; `s` is the text with the white space in front still on. */
    method ParseItems(depth: nat, ghost s: seq<Byte>) returns (r: Result<Json, ParseError>)
      requires Valid() && Rest() == s[Blanks(s)..]
      modifies this
      ensures Valid() && position >= old(position)
      ensures MatchesItems(r, ReadItems(s, depth, lexer), this)
      decreases |bytes| - position, 2
    {
      hide ReadItem, ReadItems, Elements, ValueOf;
      var values: seq<Json> := [];
      ghost var done: seq<Item> := [];
      ghost var left := s;
      NoElements(s, depth, lexer);
      while true
        invariant Valid() && position >= old(position)
        invariant Rest() == left[Blanks(left)..] || Rest() == left
        invariant values == Elements(done, lexer) && ItemsLeft(s, done, left, depth, lexer)
        decreases |bytes| - position
      {
        var value, item := ParseItem(depth, left);
        if value.Failure? {
          NoItem(s, done, left, depth, lexer);
          return Failure(JsonParseError);
        }
        values := values + [value.value];
        ElementsSnoc(done, item, lexer);
        ItemRead(s, done, left, item, Rest(), depth, lexer);
        done := done + [item];
        var closed := ConsumeIf(CLOSE_ARRAY);
        if closed {
          return Success(JArray(values));
        }
        var comma := ConsumeIf(COMMA);
        if !comma {
          return Failure(JsonParseError);
        }
        left := Rest();
      }
    }

    /** One value and the white space after it. */
    method ParseItem(depth: nat, ghost s: seq<Byte>) returns (r: Result<Json, ParseError>, ghost item: Item)
      requires Valid() && (Rest() == s[Blanks(s)..] || Rest() == s)
      modifies this
      ensures Valid() && position >= old(position)
      ensures r.Success? <==> ReadItem(s, depth, lexer).Some?
      ensures r.Success? ==>
                && ReadItem(s, depth, lexer) == Some((item, Rest())) && r.value == ValueOf(item.tree, lexer)
                && position > old(position)
      decreases |bytes| - position, 2, 0
    {
      hide ReadValue, ValueOf;
      item := Item([], Null, []);
      ghost var start := Rest();
      ReadAfterBlanks(s, depth, lexer);
      r := ParseValue(depth);
      if r.Failure? {
        return;
      }
      ghost var after := Rest();
      ghost var read := ReadValue(s, depth, lexer).value;
      ghost var blank := SkipWhitespace();
      item := Item(read.0, read.1, blank);
    }

    /** An object whose opening brace has been consumed. */
    method ParseMap(depth: nat) returns (r: Result<Json, ParseError>)
      requires Valid()
      modifies this
      ensures Valid() && position >= old(position)
      ensures Matches(r, ReadObject(old(Rest()), depth, lexer), this)
      decreases |bytes| - position, 3
    {
      hide ReadMembers, Entries, ValueOf;
      ghost var s := Rest();
      if depth + 1 > MAX_DEPTH {
        return Failure(JsonParseError);
      }
      ghost var blank := SkipWhitespace();
      var closed := ConsumeIf(CLOSE_OBJECT);
      if closed {
        ObjectsHaveEntries(Object(blank, []), lexer);
        NoEntries(s, depth, lexer);
        return Success(JObject(map[]));
      }
      r := ParseMembers(depth + 1, s);
      if r.Success? {
        ObjectsHaveEntries(Object([], ReadMembers(s, depth + 1, {}, lexer).value.0), lexer);
      }
    }

    /** The members of an object up to its end. */
    method ParseMembers(depth: nat, ghost s: seq<Byte>) returns (r: Result<Json, ParseError>)
      requires Valid() && Rest() == s[Blanks(s)..]
      modifies this
      ensures Valid() && position >= old(position)
      ensures MatchesMembers(r, ReadMembers(s, depth, {}, lexer), this)
      decreases |bytes| - position, 2
    {
      hide ReadMember, ReadMembers, Entries, ValueOf;
      var values: map<string, Json> := map[];
      ghost var done: seq<Member> := [];
      ghost var left := s;
      NoEntries(s, depth, lexer);
      assert values.Keys == {};
      while true
        invariant Valid() && position >= old(position)
        invariant Rest() == left[Blanks(left)..] || Rest() == left
        invariant values == Entries(done, lexer) && MembersLeft(s, done, left, values.Keys, depth, lexer)
        decreases |bytes| - position
      {
        var parsed, member := ParseMember(depth, values, left);
        if parsed.Failure? {
          NoMember(s, done, left, values.Keys, depth, lexer);
          return Failure(JsonParseError);
        }
        EntriesSnoc(done, member, lexer);
        MemberRead(s, done, left, values.Keys, member, Rest(), depth, lexer);
        values := values[parsed.value.0 := parsed.value.1];
        done := done + [member];
        var closed := ConsumeIf(CLOSE_OBJECT);
        if closed {
          return Success(JObject(values));
        }
        var comma := ConsumeIf(COMMA);
        if !comma {
          return Failure(JsonParseError);
        }
        left := Rest();
      }
    }

    /** A key that is not there yet, and its colon. */
    method ParseKey(values: map<string, Json>, ghost s: seq<Byte>)
      returns (r: Result<string, ParseError>)
      requires Valid() && (Rest() == s[Blanks(s)..] || Rest() == s)
      modifies this
      ensures Valid() && position >= old(position)
      ensures r.Success? <==> ReadKey(s, values.Keys, lexer).Some?
      ensures r.Success? ==>
                && ReadKey(s, values.Keys, lexer).value.3 == Rest() && position > old(position)
                && r.value == Spelled(lexer.text(ReadKey(s, values.Keys, lexer).value.1))
    {
      hide ReadText;
      BlanksOnce(s);
      ghost var before := SkipWhitespace();
      assert Rest() == s[Blanks(s)..];
      var key := ParseString();
      if key.Failure? || key.value in values {
        return Failure(JsonParseError);
      }
      ghost var beforeColon := SkipWhitespace();
      var colon := ConsumeIf(COLON);
      if !colon {
        return Failure(JsonParseError);
      }
      return Success(key.value);
    }

    /** One member and the white space after it. */
    method ParseMember(depth: nat, values: map<string, Json>, ghost s: seq<Byte>)
      returns (r: Result<(string, Json), ParseError>, ghost member: Member)
      requires Valid() && (Rest() == s[Blanks(s)..] || Rest() == s)
      modifies this
      ensures Valid() && position >= old(position)
      ensures r.Success? <==> ReadMember(s, depth, values.Keys, lexer).Some?
      ensures r.Success? ==>
                && ReadMember(s, depth, values.Keys, lexer) == Some((member, Rest())) && position > old(position)
                && r.value == (Spelled(lexer.text(member.key)), ValueOf(member.tree, lexer))
      decreases |bytes| - position, 2, 0
    {
      hide ReadKey, ReadItem, ValueOf;
      member := Member([], [], [], [], Null, []);
      var key := ParseKey(values, s);
      if key.Failure? {
        return Failure(JsonParseError), member;
      }
      var value, item := ParseItem(depth, Rest());
      if value.Failure? {
        return Failure(JsonParseError), member;
      }
      ghost var read := ReadKey(s, values.Keys, lexer).value;
      member := Member(read.0, read.1, read.2, item.before, item.tree, item.after);
      return Success((key.value, value.value)), member;
    }
  }

  // ---------- what the methods promise ----------

  ghost predicate Matches(r: Result<Json, ParseError>, read: Option<(Tree, seq<Byte>)>, p: Parser)
    reads p
    requires p.Valid()
  {
    && (r.Success? <==> read.Some?)
    && (read.Some? ==> r.value == ValueOf(read.value.0, p.lexer) && p.Rest() == read.value.1)
  }

  ghost predicate MatchesValue(r: Result<Json, ParseError>, read: Option<(seq<Byte>, Tree, seq<Byte>)>, p: Parser)
    reads p
    requires p.Valid()
  {
    && (r.Success? <==> read.Some?)
    && (read.Some? ==> r.value == ValueOf(read.value.1, p.lexer) && p.Rest() == read.value.2)
  }

  ghost predicate MatchesItems(r: Result<Json, ParseError>, read: Option<(seq<Item>, seq<Byte>)>, p: Parser)
    reads p
    requires p.Valid()
  {
    && (r.Success? <==> read.Some?)
    && (read.Some? ==> r.value == JArray(Elements(read.value.0, p.lexer)) && p.Rest() == read.value.1)
  }

  ghost predicate MatchesMembers(r: Result<Json, ParseError>, read: Option<(seq<Member>, seq<Byte>)>, p: Parser)
    reads p
    requires p.Valid()
  {
    && (r.Success? <==> read.Some?)
    && (read.Some? ==> r.value == JObject(Entries(read.value.0, p.lexer)) && p.Rest() == read.value.1)
  }

  /** Skipping white space twice is skipping it once. */
  lemma BlanksOnce(s: seq<Byte>)
    ensures Blanks(s[Blanks(s)..]) == 0
  {
  }

  lemma ReadAfterBlanks(s: seq<Byte>, depth: nat, lexer: Lexer)
    ensures var t := s[Blanks(s)..];
            && (ReadValue(t, depth, lexer).Some? <==> ReadValue(s, depth, lexer).Some?)
            && (ReadValue(s, depth, lexer).Some? ==>
                  && ReadValue(t, depth, lexer).value.1 == ReadValue(s, depth, lexer).value.1
                  && ReadValue(t, depth, lexer).value.2 == ReadValue(s, depth, lexer).value.2)
  {
    hide ReadTree;
    BlanksOnce(s);
    var t := s[Blanks(s)..];
    assert t[0..] == t;
  }

  // ---------- items read so far ----------

  /** Reading `s` is having read `done` and then reading `left`. */
  ghost predicate ItemsLeft(s: seq<Byte>, done: seq<Item>, left: seq<Byte>, depth: nat, lexer: Lexer) {
    && (ReadItems(s, depth, lexer).Some? <==> ReadItems(left, depth, lexer).Some?)
    && (ReadItems(s, depth, lexer).Some? ==>
          && ReadItems(s, depth, lexer).value.0 == done + ReadItems(left, depth, lexer).value.0
          && ReadItems(s, depth, lexer).value.1 == ReadItems(left, depth, lexer).value.1)
  }

  lemma NoElements(s: seq<Byte>, depth: nat, lexer: Lexer)
    ensures Elements([], lexer) == [] && ItemsLeft(s, [], s, depth, lexer)
  {
    hide ReadItems;
  }

  lemma {:induction false} ElementsSnoc(items: seq<Item>, item: Item, lexer: Lexer)
    ensures Elements(items + [item], lexer) == Elements(items, lexer) + [ValueOf(item.tree, lexer)]
  {
    hide ValueOf;
    if items == [] {
      assert items + [item] == [item] && [item][1..] == [];
    } else {
      ElementsSnoc(items[1..], item, lexer);
      assert (items + [item])[1..] == items[1..] + [item];
    }
  }

  lemma NoItem(s: seq<Byte>, done: seq<Item>, left: seq<Byte>, depth: nat, lexer: Lexer)
    requires ItemsLeft(s, done, left, depth, lexer) && ReadItem(left, depth, lexer).None?
    ensures ReadItems(s, depth, lexer).None?
  {
    hide ReadItem;
  }

  /** What the reading of one item leaves. */
  lemma ItemRead(s: seq<Byte>, done: seq<Item>, left: seq<Byte>, item: Item, rest: seq<Byte>, depth: nat, lexer: Lexer)
    requires ItemsLeft(s, done, left, depth, lexer) && ReadItem(left, depth, lexer) == Some((item, rest))
    ensures if rest == [] || (rest[0] != CLOSE_ARRAY && rest[0] != COMMA) then ReadItems(s, depth, lexer).None?
            else if rest[0] == CLOSE_ARRAY then ReadItems(s, depth, lexer) == Some((done + [item], rest[1..]))
            else ItemsLeft(s, done + [item], rest[1..], depth, lexer)
  {
    hide ReadItem;
    if rest != [] && rest[0] == COMMA {
      var more := ReadItems(rest[1..], depth, lexer);
      if more.Some? {
        assert done + ([item] + more.value.0) == done + [item] + more.value.0;
      }
    }
  }

  // ---------- members read so far ----------

  ghost predicate MembersLeft(
      s: seq<Byte>, done: seq<Member>, left: seq<Byte>, seen: set<string>, depth: nat, lexer: Lexer) {
    && (ReadMembers(s, depth, {}, lexer).Some? <==> ReadMembers(left, depth, seen, lexer).Some?)
    && (ReadMembers(s, depth, {}, lexer).Some? ==>
          && ReadMembers(s, depth, {}, lexer).value.0 == done + ReadMembers(left, depth, seen, lexer).value.0
          && ReadMembers(s, depth, {}, lexer).value.1 == ReadMembers(left, depth, seen, lexer).value.1)
  }

  lemma NoEntries(s: seq<Byte>, depth: nat, lexer: Lexer)
    ensures Entries([], lexer) == map[] && MembersLeft(s, [], s, {}, depth, lexer)
  {
    hide ReadMembers;
  }

  lemma {:induction false} EntriesSnoc(members: seq<Member>, member: Member, lexer: Lexer)
    ensures Entries(members + [member], lexer) ==
            Entries(members, lexer)[Spelled(lexer.text(member.key)) := ValueOf(member.tree, lexer)]
    ensures Entries(members + [member], lexer).Keys == Entries(members, lexer).Keys + {Spelled(lexer.text(member.key))}
  {
    hide ValueOf;
    if members == [] {
      assert members + [member] == [member] && [member][1..] == [];
    } else {
      EntriesSnoc(members[1..], member, lexer);
      assert (members + [member])[1..] == members[1..] + [member];
      UpdateAfterJoin(Spelled(lexer.text(members[0].key)), ValueOf(members[0].tree, lexer),
                      Entries(members[1..], lexer), Spelled(lexer.text(member.key)), ValueOf(member.tree, lexer));
    }
  }

  lemma UpdateAfterJoin(k: string, v: Json, entries: map<string, Json>, key: string, value: Json)
    ensures map[k := v] + entries[key := value] == (map[k := v] + entries)[key := value]
    ensures (map[k := v] + entries)[key := value].Keys == (map[k := v] + entries).Keys + {key}
  {
  }

  lemma NoMember(s: seq<Byte>, done: seq<Member>, left: seq<Byte>, seen: set<string>, depth: nat, lexer: Lexer)
    requires MembersLeft(s, done, left, seen, depth, lexer) && ReadMember(left, depth, seen, lexer).None?
    ensures ReadMembers(s, depth, {}, lexer).None?
  {
    hide ReadMember;
  }

  lemma MemberRead(s: seq<Byte>, done: seq<Member>, left: seq<Byte>, seen: set<string>, member: Member, rest: seq<Byte>,
                   depth: nat, lexer: Lexer)
    requires MembersLeft(s, done, left, seen, depth, lexer)
             && ReadMember(left, depth, seen, lexer) == Some((member, rest))
    ensures if rest == [] || (rest[0] != CLOSE_OBJECT && rest[0] != COMMA) then ReadMembers(s, depth, {}, lexer).None?
            else if rest[0] == CLOSE_OBJECT then ReadMembers(s, depth, {}, lexer) == Some((done + [member], rest[1..]))
            else MembersLeft(s, done + [member], rest[1..], seen + {Spelled(lexer.text(member.key))}, depth, lexer)
  {
    hide ReadMember;
    if rest != [] && rest[0] == COMMA {
      var more := ReadMembers(rest[1..], depth, seen + {Spelled(lexer.text(member.key))}, lexer);
      if more.Some? {
        assert done + ([member] + more.value.0) == done + [member] + more.value.0;
      }
    }
  }

  // ---------- records ----------

  /** The text is a legal object with white space around it. */
  ghost predicate IsRecord(bytes: seq<Byte>, before: seq<Byte>, tree: Tree, after: seq<Byte>, lexer: Lexer) {
    && bytes == before + Print(tree) + after && AllBlank(before) && AllBlank(after)
    && tree.Object? && Legal(tree, 0, lexer)
  }

  /** Parses one record. It succeeds exactly on texts of objects with no key twice and at most 128 containers nested,
      and gives the entries the text prints. */
  method ParseRecord(bytes: seq<Byte>, lexer: Lexer)
    returns (r: Result<map<string, Json>, ParseError>, ghost tree: Tree)
    ensures r.Success? ==>
              && (exists before, after :: IsRecord(bytes, before, tree, after, lexer))
              && r.value == Entries(tree.members, lexer) && Depth(tree) <= 128
    ensures r.Failure? ==> forall before, other, after :: !IsRecord(bytes, before, other, after, lexer)
  {
    hide ReadItem, ReadValue, Print, Legal, Depth, Entries;
    tree := Null;
    var parser := new Parser(bytes, lexer);
    ghost var blank := parser.SkipWhitespace();
    var value, item := parser.ParseItem(0, bytes);
    NotARecord(bytes, lexer);
    if value.Failure? {
      return Failure(JsonParseError), tree;
    }
    if parser.position != |bytes| {
      return Failure(JsonParseError), tree;
    }
    ItemIsRecord(bytes, item, lexer);
    tree := item.tree;
    ObjectsHaveEntries(tree, lexer);
    if !value.value.JObject? {
      return Failure(JsonParseError), tree;
    }
    assert IsRecord(bytes, item.before, tree, item.after, lexer);
    LegalDepth(tree, 0, lexer);
    return Success(value.value.entries), tree;
  }

  lemma ArraysHaveElements(tree: Tree, lexer: Lexer)
    requires tree.Array?
    ensures ValueOf(tree, lexer) == JArray(Elements(tree.items, lexer))
  {
  }

  lemma ObjectsHaveEntries(tree: Tree, lexer: Lexer)
    ensures ValueOf(tree, lexer).JObject? <==> tree.Object?
    ensures tree.Object? ==> ValueOf(tree, lexer) == JObject(Entries(tree.members, lexer))
  {
  }

  lemma ItemIsRecord(bytes: seq<Byte>, item: Item, lexer: Lexer)
    requires ReadItem(bytes, 0, lexer) == Some((item, []))
    ensures item.tree.Object? ==> IsRecord(bytes, item.before, item.tree, item.after, lexer)
    ensures Legal(item.tree, 0, lexer)
  {
    hide Print, Legal, ReadItem;
    ReadItemSound(bytes, 0, lexer);
    assert ItemText(item) + [] == ItemText(item);
  }

  /** A record is read as a whole, as an object. */
  lemma RecordIsRead(bytes: seq<Byte>, before: seq<Byte>, tree: Tree, after: seq<Byte>, lexer: Lexer)
    requires IsRecord(bytes, before, tree, after, lexer)
    ensures ReadItem(bytes, 0, lexer) == Some((Item(before, tree, after), []))
  {
    hide Print, Legal, ReadValue;
    ReadValueComplete(before, tree, after, 0, lexer);
    assert after + [] == after;
    BlanksExact(after, []);
    assert after[..|after|] == after && after[|after|..] == [];
  }

  lemma NotARecord(bytes: seq<Byte>, lexer: Lexer)
    ensures var read := ReadItem(bytes, 0, lexer);
            (forall before, tree, after :: !IsRecord(bytes, before, tree, after, lexer)) ||
            (read.Some? && read.value.1 == [] && read.value.0.tree.Object?)
  {
    hide IsRecord, ReadItem;
    if before, tree, after :| IsRecord(bytes, before, tree, after, lexer) {
      RecordIsRead(bytes, before, tree, after, lexer);
      RecordIsObject(bytes, before, tree, after, lexer);
    }
  }

  lemma RecordIsObject(bytes: seq<Byte>, before: seq<Byte>, tree: Tree, after: seq<Byte>, lexer: Lexer)
    requires IsRecord(bytes, before, tree, after, lexer)
    ensures tree.Object?
  {
  }

  /** A text is the print of one record at most, so parsing gives back what was printed. */
  lemma RecordIsUnique(bytes: seq<Byte>, before: seq<Byte>, tree: Tree, after: seq<Byte>,
                       before': seq<Byte>, tree': Tree, after': seq<Byte>, lexer: Lexer)
    requires IsRecord(bytes, before, tree, after, lexer) && IsRecord(bytes, before', tree', after', lexer)
    ensures before == before' && tree == tree' && after == after'
  {
    hide IsRecord, ReadItem;
    RecordIsRead(bytes, before, tree, after, lexer);
    RecordIsRead(bytes, before', tree', after', lexer);
  }
}
