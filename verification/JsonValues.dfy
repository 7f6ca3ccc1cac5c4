/** Which values can be written as a record: those whose tokens can be spelled and that nest few enough containers.
    Parsing gives exactly these, so it undoes writing for every one of them. */
module JsonValues {
  import opened Basics
  import opened ByteStrings
  import opened JsonText
  import opened JsonParser

  /** No more than `depth` containers are nested in the value. */
  ghost predicate Within(value: Json, depth: nat)
    decreases depth
  {
    match value
    case JArray(elements) => depth > 0 && forall i :: 0 <= i < |elements| ==> Within(elements[i], depth - 1)
    case JObject(entries) => depth > 0 && forall key :: key in entries ==> Within(entries[key], depth - 1)
    case _ => true
  }

  ghost predicate TextSpelled(text: string, lexer: Lexer) {
    exists token :: KeyToken(token, lexer) && lexer.text(token) == Some(text)
  }

  ghost predicate NumberSpelled(number: string, lexer: Lexer) {
    exists token :: IsNumberToken(token) && lexer.number(token) == Some(number)
  }

  /** Every string, key and number of a value nested no deeper than that is spelled by some token. */
  ghost predicate Writable(value: Json, depth: nat, lexer: Lexer)
    decreases depth
  {
    match value
    case JNumber(number) => NumberSpelled(number, lexer)
    case JString(text) => TextSpelled(text, lexer)
    case JArray(elements) => depth > 0 && forall i :: 0 <= i < |elements| ==> Writable(elements[i], depth - 1, lexer)
    case JObject(entries) =>
      depth > 0 && forall key :: key in entries ==> TextSpelled(key, lexer) && Writable(entries[key], depth - 1, lexer)
    case _ => true
  }

  lemma {:induction false} WritableIsWithin(value: Json, depth: nat, lexer: Lexer)
    requires Writable(value, depth, lexer)
    ensures Within(value, depth)
    decreases depth
  {
    match value
    case JArray(elements) =>
      forall i | 0 <= i < |elements| ensures Within(elements[i], depth - 1) {
        WritableIsWithin(elements[i], depth - 1, lexer);
      }
    case JObject(entries) =>
      forall key | key in entries ensures Within(entries[key], depth - 1) {
        WritableIsWithin(entries[key], depth - 1, lexer);
      }
    case _ =>
  }

  // ---------- every such value has a text ----------

  /** A tree that may stand inside `MAX_DEPTH - depth` containers and has the value. */
  lemma {:induction false} TreeOf(value: Json, depth: nat, lexer: Lexer) returns (tree: Tree)
    requires Writable(value, depth, lexer) && depth <= MAX_DEPTH
    ensures Legal(tree, MAX_DEPTH - depth, lexer) && ValueOf(tree, lexer) == value
    ensures value.JObject? ==> tree.Object?
    decreases depth, 0
  {
    match value
    case JNull => tree := Null;
    case JBool(b) => tree := Bool(b);
    case JNumber(number) =>
      var token :| IsNumberToken(token) && lexer.number(token) == Some(number);
      tree := Number(token);
    case JString(text) =>
      var token :| KeyToken(token, lexer) && lexer.text(token) == Some(text);
      tree := Text(token);
    case JArray(elements) =>
      var items := ItemsOf(elements, depth - 1, lexer);
      tree := Array([], items);
    case JObject(entries) =>
      var members := MembersOf(entries, depth - 1, lexer);
      tree := Object([], members);
  }

  lemma {:induction false} ItemsOf(elements: seq<Json>, depth: nat, lexer: Lexer) returns (items: seq<Item>)
    requires depth < MAX_DEPTH && forall i :: 0 <= i < |elements| ==> Writable(elements[i], depth, lexer)
    ensures Elements(items, lexer) == elements
    ensures forall i :: 0 <= i < |items| ==>
              items[i].before == [] == items[i].after && Legal(items[i].tree, MAX_DEPTH - depth, lexer)
    decreases depth, |elements| + 1
  {
    hide Legal, Writable;
    if elements == [] {
      items := [];
    } else {
      var tree := TreeOf(elements[0], depth, lexer);
      var rest := ItemsOf(elements[1..], depth, lexer);
      items := [Item([], tree, [])] + rest;
      assert items[1..] == rest;
    }
  }

  /** Members with the spelled keys, no white space and legal trees. */
  ghost predicate PlainMember(member: Member, keys: set<string>, depth: nat, lexer: Lexer) {
    && member.before == [] == member.beforeColon && member.afterColon == [] == member.after
    && KeyToken(member.key, lexer) && lexer.text(member.key).value in keys && Legal(member.tree, depth, lexer)
  }

  lemma {:induction false} MembersOf(entries: map<string, Json>, depth: nat, lexer: Lexer)
    returns (members: seq<Member>)
    requires depth < MAX_DEPTH
    requires forall key :: key in entries ==> TextSpelled(key, lexer) && Writable(entries[key], depth, lexer)
    ensures Entries(members, lexer) == entries && DistinctKeys(members, lexer)
    ensures forall i :: 0 <= i < |members| ==> PlainMember(members[i], entries.Keys, MAX_DEPTH - depth, lexer)
    decreases depth, |entries| + 1
  {
    hide Legal, Writable, PlainMember, Entries, ValueOf, DistinctKeys, KeyToken;
    if entries == map[] {
      members := [];
      NoMembers(lexer);
    } else {
      var key :| key in entries;
      var rest := entries - {key};
      FewerKeys(entries, key);
      var token :| KeyToken(token, lexer) && lexer.text(token) == Some(key);
      var tree := TreeOf(entries[key], depth, lexer);
      var others := MembersOf(rest, depth, lexer);
      var first := Member([], token, [], [], tree, []);
      members := [first] + others;
      assert members[1..] == others;
      IsPlain(first, key, MAX_DEPTH - depth, lexer);
      OneMoreMember(entries, key, members, MAX_DEPTH - depth, lexer);
    }
  }

  lemma NoMembers(lexer: Lexer)
    ensures Entries([], lexer) == map[] && DistinctKeys([], lexer)
  {
  }

  lemma IsPlain(member: Member, key: string, depth: nat, lexer: Lexer)
    requires member.before == [] == member.beforeColon && member.afterColon == [] == member.after
    requires KeyToken(member.key, lexer) && lexer.text(member.key) == Some(key) && Legal(member.tree, depth, lexer)
    ensures PlainMember(member, {key}, depth, lexer)
  {
  }

  lemma OneMoreMember(entries: map<string, Json>, key: string, members: seq<Member>, depth: nat, lexer: Lexer)
    requires members != [] && key in entries && lexer.text(members[0].key) == Some(key)
    requires PlainMember(members[0], {key}, depth, lexer) && ValueOf(members[0].tree, lexer) == entries[key]
    requires Entries(members[1..], lexer) == entries - {key} && DistinctKeys(members[1..], lexer)
    requires forall i :: 0 < i < |members| ==> PlainMember(members[i], entries.Keys - {key}, depth, lexer)
    ensures Entries(members, lexer) == entries && DistinctKeys(members, lexer)
    ensures forall i :: 0 <= i < |members| ==> PlainMember(members[i], entries.Keys, depth, lexer)
  {
    hide Legal, KeyToken;
    assert entries == map[key := entries[key]] + (entries - {key});
    forall i, j | 0 <= i < j < |members| ensures lexer.text(members[i].key) != lexer.text(members[j].key) {
      assert PlainMember(members[j], entries.Keys - {key}, depth, lexer);
      if i > 0 {
        assert members[i] == members[1..][i - 1] && members[j] == members[1..][j - 1];
      } else {
        TextOfKey(members[j].key, lexer);
      }
    }
  }

  lemma TextOfKey(token: seq<Byte>, lexer: Lexer)
    requires KeyToken(token, lexer)
    ensures lexer.text(token).Some?
  {
  }

  // ---------- and nothing else has one ----------

  lemma {:induction false} LegalIsWritable(tree: Tree, depth: nat, lexer: Lexer)
    requires Legal(tree, depth, lexer) && depth <= MAX_DEPTH
    ensures Writable(ValueOf(tree, lexer), MAX_DEPTH - depth, lexer)
    decreases tree
  {
    match tree
    case Array(_, items) => LegalItems(items, depth + 1, lexer);
    case Object(_, members) => LegalMembers(members, depth + 1, lexer);
    case _ =>
  }

  lemma {:induction false} LegalItems(items: seq<Item>, depth: nat, lexer: Lexer)
    requires depth <= MAX_DEPTH && forall i :: 0 <= i < |items| ==> Legal(items[i].tree, depth, lexer)
    ensures forall i :: 0 <= i < |items| ==> Writable(Elements(items, lexer)[i], MAX_DEPTH - depth, lexer)
    decreases items
  {
    hide Writable;
    if items != [] {
      LegalIsWritable(items[0].tree, depth, lexer);
      LegalItems(items[1..], depth, lexer);
    }
  }

  lemma {:induction false} LegalMembers(members: seq<Member>, depth: nat, lexer: Lexer)
    requires depth <= MAX_DEPTH
    requires forall i :: 0 <= i < |members| ==> KeyToken(members[i].key, lexer) && Legal(members[i].tree, depth, lexer)
    ensures forall key :: key in Entries(members, lexer) ==>
              TextSpelled(key, lexer) && Writable(Entries(members, lexer)[key], MAX_DEPTH - depth, lexer)
    decreases members
  {
    hide Writable;
    if members != [] {
      LegalIsWritable(members[0].tree, depth, lexer);
      LegalMembers(members[1..], depth, lexer);
    }
  }

  /** Exactly the objects of spelled tokens with at most 128 nested containers have a text, so the parser, which gives
      what a text prints, gives exactly these. */
  lemma ObjectsWithText(entries: map<string, Json>, lexer: Lexer)
    ensures Writable(JObject(entries), MAX_DEPTH, lexer) <==>
            exists bytes, before, tree, after :: IsRecord(bytes, before, tree, after, lexer)
                && Entries(tree.members, lexer) == entries
    ensures Writable(JObject(entries), MAX_DEPTH, lexer) ==> Within(JObject(entries), MAX_DEPTH)
  {
    if Writable(JObject(entries), MAX_DEPTH, lexer) {
      WritableIsWithin(JObject(entries), MAX_DEPTH, lexer);
      var tree := TreeOf(JObject(entries), MAX_DEPTH, lexer);
      hide Legal, Writable, Print;
      var bytes := [] + Print(tree) + [];
      assert IsRecord(bytes, [], tree, [], lexer);
    }
    if bytes, before, tree, after :|
      IsRecord(bytes, before, tree, after, lexer) && Entries(tree.members, lexer) == entries
    {
      LegalIsWritable(tree, 0, lexer);
    }
  }

  /** Writing a record and parsing what was written gives the record back, for every record that can be written. */
  method WriteThenParse(entries: map<string, Json>, ghost tree: Tree, bytes: seq<Byte>, lexer: Lexer)
    returns (r: Result<map<string, Json>, ParseError>)
    requires tree.Object? && Legal(tree, 0, lexer) && ValueOf(tree, lexer) == JObject(entries) && bytes == Print(tree)
    ensures r == Success(entries)
  {
    hide Legal, Print, Entries;
    ghost var read;
    assert bytes == [] + Print(tree) + [];
    assert IsRecord(bytes, [], tree, [], lexer);
    r, read := ParseRecord(bytes, lexer);
    ghost var before, after :| IsRecord(bytes, before, read, after, lexer);
    RecordIsUnique(bytes, [], tree, [], before, read, after, lexer);
  }
}
