/** Reading and printing are inverses: what is read from a text is the one legal tree the text prints. */
module JsonGrammar {
  import opened Basics
  import opened ByteStrings
  import opened JsonText

  // ---------- tokens ----------

  /** The end of a string depends only on the bytes up to it. */
  lemma {:induction false} StringEndPrefix(s: seq<Byte>, more: seq<Byte>, i: nat, escaped: bool)
    requires StringEnd(s, i, escaped).Some?
    ensures StringEnd(s + more, i, escaped) == StringEnd(s, i, escaped)
    decreases |s| - i
  {
    var t := s + more;
    if i < |s| {
      assert t[i] == s[i];
      if escaped {
        StringEndPrefix(s, more, i + 1, false);
      } else if s[i] == BACKSLASH {
        StringEndPrefix(s, more, i + 1, true);
      } else if s[i] != QUOTE {
        StringEndPrefix(s, more, i + 1, false);
      }
    }
  }

  lemma {:induction false} StringEndCut(s: seq<Byte>, i: nat, escaped: bool, end: nat)
    requires StringEnd(s, i, escaped) == Some(end)
    ensures StringEnd(s[..end], i, escaped) == Some(end)
    decreases |s| - i
  {
    var t := s[..end];
    if i < |s| {
      if escaped {
        StringEndCut(s, i + 1, false, end);
      } else if s[i] == BACKSLASH {
        StringEndCut(s, i + 1, true, end);
      } else if s[i] != QUOTE {
        StringEndCut(s, i + 1, false, end);
      }
    }
  }

  lemma ReadTextSound(s: seq<Byte>, lexer: Lexer)
    requires ReadText(s, lexer).Some?
    ensures KeyToken(ReadText(s, lexer).value.0, lexer)
  {
    var end := StringEnd(s, 1, false).value;
    StringEndCut(s, 1, false, end);
    assert s[..end][0] == s[0];
  }

  lemma ReadTextComplete(token: seq<Byte>, rest: seq<Byte>, lexer: Lexer)
    requires KeyToken(token, lexer)
    ensures ReadText(token + rest, lexer) == Some((token, rest))
  {
    var s := token + rest;
    StringEndPrefix(token, rest, 1, false);
    assert s[..|token|] == token && s[|token|..] == rest;
  }

  /** What may follow a number. */
  predicate Delimited(rest: seq<Byte>) {
    rest == [] || IsDelimiter(rest[0])
  }

  lemma {:induction false} NumberEndIs(s: seq<Byte>, i: nat)
    requires i <= |s|
    ensures forall k :: i <= k < NumberEnd(s, i) ==> !IsDelimiter(s[k])
    ensures NumberEnd(s, i) == |s| || IsDelimiter(s[NumberEnd(s, i)])
    decreases |s| - i
  {
    if i < |s| && !IsDelimiter(s[i]) {
      NumberEndIs(s, i + 1);
    }
  }

  lemma ReadNumberSound(s: seq<Byte>, lexer: Lexer)
    requires s != [] && StartsNumber(s[0]) && ReadNumber(s, lexer).Some?
    ensures var (token, rest) := ReadNumber(s, lexer).value;
            IsNumberToken(token) && lexer.number(token).Some? && Delimited(rest)
  {
    NumberEndIs(s, 0);
  }

  lemma ReadNumberComplete(token: seq<Byte>, rest: seq<Byte>, lexer: Lexer)
    requires IsNumberToken(token) && lexer.number(token).Some? && Delimited(rest)
    ensures StartsNumber((token + rest)[0]) && ReadNumber(token + rest, lexer) == Some((token, rest))
  {
    var s := token + rest;
    var end := NumberEnd(s, 0);
    NumberEndIs(s, 0);
    assert forall k :: 0 <= k < |token| ==> s[k] == token[k] && !IsDelimiter(s[k]);
    assert rest != [] ==> s[|token|] == rest[0];
    assert end >= |token| && end <= |token|;
    assert s[..end] == token && s[end..] == rest;
  }

  /** White space in front of something else is read exactly. */
  lemma {:induction false} BlanksExact(before: seq<Byte>, rest: seq<Byte>)
    requires AllBlank(before) && (rest == [] || !IsBlank(rest[0]))
    ensures Blanks(before + rest) == |before|
  {
    var s := before + rest;
    if before == [] {
      assert s == rest;
    } else {
      BlanksExact(before[1..], rest);
      assert s[1..] == before[1..] + rest;
    }
  }

  lemma Cut(before: seq<Byte>, rest: seq<Byte>)
    ensures (before + rest)[..|before|] == before && (before + rest)[|before|..] == rest
  {
  }

  // ---------- soundness ----------

  /** What is read is a legal tree, printed where it was read. */
  ghost predicate ReadIs(s: seq<Byte>, before: seq<Byte>, tree: Tree, rest: seq<Byte>, depth: nat, lexer: Lexer) {
    s == before + Print(tree) + rest && AllBlank(before) && Legal(tree, depth, lexer)
  }

  lemma {:induction false} ReadValueSound(s: seq<Byte>, depth: nat, lexer: Lexer)
    requires ReadValue(s, depth, lexer).Some?
    ensures var (before, tree, rest) := ReadValue(s, depth, lexer).value; ReadIs(s, before, tree, rest, depth, lexer)
    decreases |s|, 1
  {
    hide ReadTree, Print, Legal;
    var n := Blanks(s);
    ReadTreeSound(s[n..], depth, lexer);
    assert s == s[..n] + s[n..];
  }

  /** A tree read at the front of a text. */
  ghost predicate TreeIs(s: seq<Byte>, tree: Tree, rest: seq<Byte>, depth: nat, lexer: Lexer) {
    s == Print(tree) + rest && Legal(tree, depth, lexer)
  }

  lemma {:induction false} ReadTreeSound(s: seq<Byte>, depth: nat, lexer: Lexer)
    requires s != [] && ReadTree(s, depth, lexer).Some?
    ensures var (tree, rest) := ReadTree(s, depth, lexer).value; TreeIs(s, tree, rest, depth, lexer)
    decreases |s|, 0
  {
    hide ReadArray, ReadObject, ReadText, ReadNumber, IsQuoted, IsNumberToken;
    if s[0] == QUOTE {
      ReadTextSound(s, lexer);
    } else if s[0] == OPEN_ARRAY {
      assert s == [OPEN_ARRAY] + s[1..];
      ReadArraySound(s[1..], depth, lexer);
    } else if s[0] == OPEN_OBJECT {
      assert s == [OPEN_OBJECT] + s[1..];
      ReadObjectSound(s[1..], depth, lexer);
    } else if StartsNumber(s[0]) {
      ReadNumberSound(s, lexer);
    }
  }

  lemma {:induction false} ReadArraySound(s: seq<Byte>, depth: nat, lexer: Lexer)
    requires ReadArray(s, depth, lexer).Some?
    ensures var (tree, rest) := ReadArray(s, depth, lexer).value;
            tree.Array? && TreeIs([OPEN_ARRAY] + s, tree, rest, depth, lexer)
    decreases |s|, 4
  {
    hide ReadItems, PrintItems;
    var m := Blanks(s);
    if m < |s| && s[m] == CLOSE_ARRAY {
      assert s == s[..m] + [CLOSE_ARRAY] + s[m + 1..];
    } else {
      ReadItemsSound(s, depth + 1, lexer);
    }
  }

  lemma {:induction false} ReadObjectSound(s: seq<Byte>, depth: nat, lexer: Lexer)
    requires ReadObject(s, depth, lexer).Some?
    ensures var (tree, rest) := ReadObject(s, depth, lexer).value;
            tree.Object? && TreeIs([OPEN_OBJECT] + s, tree, rest, depth, lexer)
    decreases |s|, 4
  {
    hide ReadMembers, PrintMembers;
    var m := Blanks(s);
    if m < |s| && s[m] == CLOSE_OBJECT {
      assert s == s[..m] + [CLOSE_OBJECT] + s[m + 1..];
    } else {
      ReadMembersSound(s, depth + 1, {}, lexer);
    }
  }

  predicate ItemsLegal(items: seq<Item>, depth: nat, lexer: Lexer) {
    forall i :: 0 <= i < |items| ==>
      AllBlank(items[i].before) && AllBlank(items[i].after) && Legal(items[i].tree, depth, lexer)
  }

  predicate MembersLegal(members: seq<Member>, depth: nat, lexer: Lexer) {
    forall i :: 0 <= i < |members| ==>
      && AllBlank(members[i].before) && AllBlank(members[i].beforeColon) && AllBlank(members[i].afterColon)
      && AllBlank(members[i].after) && KeyToken(members[i].key, lexer) && Legal(members[i].tree, depth, lexer)
  }

  /** An item with the white space around it. */
  function ItemText(item: Item): seq<Byte> {
    item.before + Print(item.tree) + item.after
  }

  lemma PrintOneItem(item: Item)
    ensures PrintItems([item]) == ItemText(item) + [CLOSE_ARRAY]
  {
  }

  lemma PrintMoreItems(item: Item, more: seq<Item>)
    requires more != []
    ensures PrintItems([item] + more) == ItemText(item) + ([COMMA] + PrintItems(more))
  {
    assert ([item] + more)[1..] == more;
  }

  predicate ItemLegal(item: Item, depth: nat, lexer: Lexer) {
    AllBlank(item.before) && AllBlank(item.after) && Legal(item.tree, depth, lexer)
  }

  lemma {:induction false} ReadItemSound(s: seq<Byte>, depth: nat, lexer: Lexer)
    requires ReadItem(s, depth, lexer).Some?
    ensures var (item, rest) := ReadItem(s, depth, lexer).value;
            s == ItemText(item) + rest && ItemLegal(item, depth, lexer)
    decreases |s|, 2
  {
    hide ReadValue, Print, Legal;
    ReadValueSound(s, depth, lexer);
    var (before, tree, after) := ReadValue(s, depth, lexer).value;
    var a := Blanks(after);
    assert after == after[..a] + after[a..];
    Regroup(before + Print(tree), after[..a], after[a..]);
  }

  lemma {:induction false} ReadItemsSound(s: seq<Byte>, depth: nat, lexer: Lexer)
    requires ReadItems(s, depth, lexer).Some?
    ensures var (items, rest) := ReadItems(s, depth, lexer).value;
            s == PrintItems(items) + rest && ItemsLegal(items, depth, lexer)
    decreases |s|, 3
  {
    hide ReadItem, Print, PrintItems, Legal, ItemText;
    ReadItemSound(s, depth, lexer);
    var (item, t) := ReadItem(s, depth, lexer).value;
    assert t == [t[0]] + t[1..];
    if t[0] == CLOSE_ARRAY {
      PrintOneItem(item);
    } else {
      ReadItemsSound(t[1..], depth, lexer);
      var (more, rest) := ReadItems(t[1..], depth, lexer).value;
      PrintMoreItems(item, more);
      Regroup([COMMA], PrintItems(more), rest);
      Regroup(ItemText(item), [COMMA] + PrintItems(more), rest);
    }
  }

  /** The keys are new, and all different. */
  predicate KeysNew(members: seq<Member>, seen: set<string>, lexer: Lexer) {
    && DistinctKeys(members, lexer)
    && forall i :: 0 <= i < |members| ==> Spelled(lexer.text(members[i].key)) !in seen
  }

  /** A member up to the white space after its value. */
  function Head(m: Member): seq<Byte> {
    m.before + m.key + m.beforeColon + [COLON] + m.afterColon + Print(m.tree) + m.after
  }

  lemma PrintOneMember(m: Member)
    ensures PrintMembers([m]) == Head(m) + [CLOSE_OBJECT]
  {
  }

  lemma PrintMoreMembers(m: Member, more: seq<Member>)
    requires more != []
    ensures PrintMembers([m] + more) == Head(m) + ([COMMA] + PrintMembers(more))
  {
    assert ([m] + more)[1..] == more;
  }

  predicate MemberLegal(m: Member, depth: nat, lexer: Lexer) {
    && AllBlank(m.before) && AllBlank(m.beforeColon) && AllBlank(m.afterColon)
    && AllBlank(m.after) && KeyToken(m.key, lexer) && Legal(m.tree, depth, lexer)
  }

  /** A key up to and with its colon. */
  function KeyText(before: seq<Byte>, key: seq<Byte>, beforeColon: seq<Byte>): seq<Byte> {
    before + key + beforeColon + [COLON]
  }

  lemma ReadKeySound(s: seq<Byte>, seen: set<string>, lexer: Lexer)
    requires ReadKey(s, seen, lexer).Some?
    ensures var (before, key, beforeColon, rest) := ReadKey(s, seen, lexer).value;
            && s == KeyText(before, key, beforeColon) + rest && AllBlank(before) && AllBlank(beforeColon)
            && KeyToken(key, lexer) && Spelled(lexer.text(key)) !in seen
  {
    hide ReadText, KeyToken;
    var n := Blanks(s);
    assert s == s[..n] + s[n..];
    ReadTextSound(s[n..], lexer);
    var (key, afterKey) := ReadText(s[n..], lexer).value;
    var c := Blanks(afterKey);
    var t := afterKey[c..];
    assert afterKey == afterKey[..c] + t && t == [COLON] + t[1..];
    Regroup(afterKey[..c], [COLON], t[1..]);
    Regroup(key, afterKey[..c] + [COLON], t[1..]);
    Regroup(key, afterKey[..c], [COLON]);
    Regroup(s[..n], key + afterKey[..c] + [COLON], t[1..]);
    Regroup(s[..n], key + afterKey[..c], [COLON]);
    Regroup(s[..n], key, afterKey[..c]);
  }

  lemma HeadIs(m: Member)
    ensures Head(m) == KeyText(m.before, m.key, m.beforeColon) + ItemText(Item(m.afterColon, m.tree, m.after))
  {
    hide Print;
    var k := KeyText(m.before, m.key, m.beforeColon);
    Regroup(k, m.afterColon + Print(m.tree), m.after);
    Regroup(k, m.afterColon, Print(m.tree));
  }

  lemma {:induction false} ReadMemberSound(s: seq<Byte>, depth: nat, seen: set<string>, lexer: Lexer)
    requires ReadMember(s, depth, seen, lexer).Some?
    ensures var (m, rest) := ReadMember(s, depth, seen, lexer).value;
            s == Head(m) + rest && MemberLegal(m, depth, lexer) && Spelled(lexer.text(m.key)) !in seen
    decreases |s|, 1
  {
    hide ReadItem, ReadKey, Print, Legal, KeyToken, Head, KeyText, ItemText;
    ReadKeySound(s, seen, lexer);
    var (before, key, beforeColon, t) := ReadKey(s, seen, lexer).value;
    ReadItemSound(t, depth, lexer);
    var (item, rest) := ReadItem(t, depth, lexer).value;
    HeadIs(Member(before, key, beforeColon, item.before, item.tree, item.after));
    assert Item(item.before, item.tree, item.after) == item;
    Regroup(KeyText(before, key, beforeColon), ItemText(item), rest);
  }

  lemma {:induction false} ReadMembersSound(s: seq<Byte>, depth: nat, seen: set<string>, lexer: Lexer)
    requires ReadMembers(s, depth, seen, lexer).Some?
    ensures var (members, rest) := ReadMembers(s, depth, seen, lexer).value;
            s == PrintMembers(members) + rest && MembersLegal(members, depth, lexer) && KeysNew(members, seen, lexer)
    decreases |s|, 3
  {
    hide ReadMember, Print, PrintMembers, Legal, KeyToken, Head, KeysNew;
    ReadMemberSound(s, depth, seen, lexer);
    var (m, u) := ReadMember(s, depth, seen, lexer).value;
    assert u == [u[0]] + u[1..];
    if u[0] == CLOSE_OBJECT {
      PrintOneMember(m);
      OneKeyNew(m, seen, lexer);
    } else {
      var text := Spelled(lexer.text(m.key));
      ReadMembersSound(u[1..], depth, seen + {text}, lexer);
      var (more, rest) := ReadMembers(u[1..], depth, seen + {text}, lexer).value;
      PrintMoreMembers(m, more);
      MoreKeysNew(m, more, seen, lexer);
      Regroup([COMMA], PrintMembers(more), rest);
      Regroup(Head(m), [COMMA] + PrintMembers(more), rest);
    }
  }

  lemma OneKeyNew(m: Member, seen: set<string>, lexer: Lexer)
    requires Spelled(lexer.text(m.key)) !in seen
    ensures KeysNew([m], seen, lexer)
  {
  }

  lemma MoreKeysNew(member: Member, more: seq<Member>, seen: set<string>, lexer: Lexer)
    requires KeyToken(member.key, lexer) && Spelled(lexer.text(member.key)) !in seen
    requires KeysNew(more, seen + {Spelled(lexer.text(member.key))}, lexer)
    ensures KeysNew([member] + more, seen, lexer)
  {
    var all := [member] + more;
    forall i, j | 0 <= i < j < |all| ensures lexer.text(all[i].key) != lexer.text(all[j].key) {
      assert all[j] == more[j - 1];
      if i > 0 {
        assert all[i] == more[i - 1];
      } else {
        assert Spelled(lexer.text(more[j - 1].key)) !in seen + {Spelled(lexer.text(member.key))};
      }
    }
  }

  // ---------- completeness ----------

  /** A printed tree begins with neither white space nor nothing. */
  lemma PrintStarts(tree: Tree, depth: nat, lexer: Lexer)
    requires Legal(tree, depth, lexer)
    ensures Print(tree) != [] && !IsBlank(Print(tree)[0])
  {
    hide PrintItems, PrintMembers;
  }

  /** A legal tree is read back from its print, after any white space and before anything that can follow it. */
  lemma {:induction false} ReadValueComplete(before: seq<Byte>, tree: Tree, rest: seq<Byte>, depth: nat, lexer: Lexer)
    requires AllBlank(before) && Legal(tree, depth, lexer) && (tree.Number? ==> Delimited(rest))
    ensures ReadValue(before + Print(tree) + rest, depth, lexer) == Some((before, tree, rest))
    decreases tree, 2
  {
    hide Print, Legal, ReadTree;
    PrintStarts(tree, depth, lexer);
    var text := Print(tree) + rest;
    var s := before + Print(tree) + rest;
    Regroup(before, Print(tree), rest);
    BlanksExact(before, text);
    Cut(before, text);
    ReadTreeComplete(tree, rest, depth, lexer);
  }

  lemma {:induction false} ReadTreeComplete(tree: Tree, rest: seq<Byte>, depth: nat, lexer: Lexer)
    requires Legal(tree, depth, lexer) && (tree.Number? ==> Delimited(rest))
    ensures Print(tree) + rest != [] && ReadTree(Print(tree) + rest, depth, lexer) == Some((tree, rest))
    decreases tree, 1
  {
    hide ReadArray, ReadObject, ReadText, ReadNumber, PrintItems, PrintMembers, IsQuoted;
    var s := Print(tree) + rest;
    match tree
    case Number(token) => ReadNumberComplete(token, rest, lexer);
    case Text(token) =>
      QuotedStarts(token);
      ReadTextComplete(token, rest, lexer);
    case Array(blank, items) =>
      var inner := if items == [] then blank + [CLOSE_ARRAY] else PrintItems(items);
      assert s[1..] == inner + rest;
      ReadArrayComplete(tree, inner, rest, depth, lexer);
    case Object(blank, members) =>
      var inner := if members == [] then blank + [CLOSE_OBJECT] else PrintMembers(members);
      assert s[1..] == inner + rest;
      ReadObjectComplete(tree, inner, rest, depth, lexer);
    case _ =>
  }

  lemma QuotedStarts(token: seq<Byte>)
    requires IsQuoted(token)
    ensures |token| >= 2 && token[0] == QUOTE
  {
  }

  lemma {:induction false} ReadArrayComplete(tree: Tree, inner: seq<Byte>, rest: seq<Byte>, depth: nat, lexer: Lexer)
    requires tree.Array? && Legal(tree, depth, lexer)
    requires inner == if tree.items == [] then tree.blank + [CLOSE_ARRAY] else PrintItems(tree.items)
    ensures ReadArray(inner + rest, depth, lexer) == Some((tree, rest))
    decreases tree, 0
  {
    hide ReadItems, PrintItems;
    if tree.items == [] {
      Regroup(tree.blank, [CLOSE_ARRAY], rest);
      BlanksExact(tree.blank, [CLOSE_ARRAY] + rest);
      Cut(tree.blank, [CLOSE_ARRAY] + rest);
      assert (inner + rest)[|tree.blank| + 1..] == rest;
    } else {
      ReadItemsComplete(tree.items, rest, depth + 1, lexer);
      ItemsDoNotClose(tree.items, rest, depth + 1, lexer);
    }
  }

  lemma {:induction false} ReadObjectComplete(tree: Tree, inner: seq<Byte>, rest: seq<Byte>, depth: nat, lexer: Lexer)
    requires tree.Object? && Legal(tree, depth, lexer)
    requires inner == if tree.members == [] then tree.blank + [CLOSE_OBJECT] else PrintMembers(tree.members)
    ensures ReadObject(inner + rest, depth, lexer) == Some((tree, rest))
    decreases tree, 0
  {
    hide ReadMembers, PrintMembers;
    if tree.members == [] {
      Regroup(tree.blank, [CLOSE_OBJECT], rest);
      BlanksExact(tree.blank, [CLOSE_OBJECT] + rest);
      Cut(tree.blank, [CLOSE_OBJECT] + rest);
      assert (inner + rest)[|tree.blank| + 1..] == rest;
    } else {
      ReadMembersComplete(tree.members, rest, depth + 1, {}, lexer);
      MembersDoNotClose(tree.members, rest, depth + 1, lexer);
    }
  }

  /** What follows the white space of a first item is a value, not the end of the array. */
  lemma ItemsDoNotClose(items: seq<Item>, rest: seq<Byte>, depth: nat, lexer: Lexer)
    requires items != [] && ItemsLegal(items, depth, lexer)
    ensures var s := PrintItems(items) + rest; var m := Blanks(s); m < |s| && s[m] != CLOSE_ARRAY
  {
    hide Legal, Print;
    var item := items[0];
    var tail := PrintItems(items)[|item.before + Print(item.tree)|..];
    ValueStarts(item.tree, depth, lexer);
    var text := Print(item.tree) + (tail + rest);
    assert PrintItems(items) == item.before + Print(item.tree) + tail;
    assert PrintItems(items) + rest == item.before + text;
    BlanksExact(item.before, text);
  }

  lemma ValueStarts(tree: Tree, depth: nat, lexer: Lexer)
    requires Legal(tree, depth, lexer)
    ensures Print(tree) != [] && !IsBlank(Print(tree)[0]) && Print(tree)[0] != CLOSE_ARRAY
  {
    hide PrintItems, PrintMembers;
  }

  lemma MembersDoNotClose(members: seq<Member>, rest: seq<Byte>, depth: nat, lexer: Lexer)
    requires members != [] && MembersLegal(members, depth, lexer)
    ensures var s := PrintMembers(members) + rest; var m := Blanks(s); m < |s| && s[m] != CLOSE_OBJECT
  {
    hide Legal, Print;
    var member := members[0];
    QuotedStarts(member.key);
    var tail := PrintMembers(members)[|member.before + member.key|..];
    var text := member.key + (tail + rest);
    assert PrintMembers(members) == member.before + member.key + tail;
    assert PrintMembers(members) + rest == member.before + text;
    BlanksExact(member.before, text);
  }

  lemma {:induction false} ReadItemsComplete(items: seq<Item>, rest: seq<Byte>, depth: nat, lexer: Lexer)
    requires items != [] && ItemsLegal(items, depth, lexer)
    ensures ReadItems(PrintItems(items) + rest, depth, lexer) == Some((items, rest))
    decreases items
  {
    hide ReadItem, Print, PrintItems, Legal, ItemText;
    var item, more := items[0], items[1..];
    if more == [] {
      assert items == [item];
      PrintOneItem(item);
      Regroup(ItemText(item), [CLOSE_ARRAY], rest);
      ReadItemComplete(item, [CLOSE_ARRAY] + rest, depth, lexer);
      assert ([CLOSE_ARRAY] + rest)[1..] == rest;
    } else {
      assert items == [item] + more;
      PrintMoreItems(item, more);
      var next := PrintItems(more) + rest;
      Regroup([COMMA], PrintItems(more), rest);
      Regroup(ItemText(item), [COMMA] + PrintItems(more), rest);
      ReadItemComplete(item, [COMMA] + next, depth, lexer);
      assert ([COMMA] + next)[1..] == next;
      ReadItemsComplete(more, rest, depth, lexer);
    }
  }

  lemma {:induction false} ReadItemComplete(item: Item, rest: seq<Byte>, depth: nat, lexer: Lexer)
    requires ItemLegal(item, depth, lexer) && rest != [] && IsDelimiter(rest[0]) && !IsBlank(rest[0])
    ensures ReadItem(ItemText(item) + rest, depth, lexer) == Some((item, rest))
    decreases item.tree, 3
  {
    hide ReadValue, Print, Legal;
    var after := item.after + rest;
    Regroup(item.before + Print(item.tree), item.after, rest);
    assert after[0] == if item.after == [] then rest[0] else item.after[0];
    ReadValueComplete(item.before, item.tree, after, depth, lexer);
    BlanksExact(item.after, rest);
    Cut(item.after, rest);
  }

  lemma {:induction false} ReadMembersComplete(members: seq<Member>, rest: seq<Byte>, depth: nat, seen: set<string>,
                                               lexer: Lexer)
    requires members != [] && MembersLegal(members, depth, lexer) && KeysNew(members, seen, lexer)
    ensures ReadMembers(PrintMembers(members) + rest, depth, seen, lexer) == Some((members, rest))
    decreases members
  {
    hide ReadMember, Print, PrintMembers, Legal, Head, KeyToken, KeysNew;
    var m, more := members[0], members[1..];
    FirstKeyNew(members, seen, lexer);
    if more == [] {
      assert members == [m];
      PrintOneMember(m);
      Regroup(Head(m), [CLOSE_OBJECT], rest);
      ReadMemberComplete(m, [CLOSE_OBJECT] + rest, depth, seen, lexer);
      assert ([CLOSE_OBJECT] + rest)[1..] == rest;
    } else {
      assert members == [m] + more;
      PrintMoreMembers(m, more);
      var next := PrintMembers(more) + rest;
      Regroup([COMMA], PrintMembers(more), rest);
      Regroup(Head(m), [COMMA] + PrintMembers(more), rest);
      ReadMemberComplete(m, [COMMA] + next, depth, seen, lexer);
      assert ([COMMA] + next)[1..] == next;
      ReadMembersComplete(more, rest, depth, seen + {Spelled(lexer.text(m.key))}, lexer);
    }
  }

  lemma FirstKeyNew(members: seq<Member>, seen: set<string>, lexer: Lexer)
    requires members != [] && KeysNew(members, seen, lexer)
    requires forall i :: 0 <= i < |members| ==> KeyToken(members[i].key, lexer)
    ensures Spelled(lexer.text(members[0].key)) !in seen
    ensures KeysNew(members[1..], seen + {Spelled(lexer.text(members[0].key))}, lexer)
  {
    hide IsQuoted;
    var more := members[1..];
    forall i | 0 <= i < |more|
      ensures Spelled(lexer.text(more[i].key)) !in seen + {Spelled(lexer.text(members[0].key))}
    {
      assert more[i] == members[i + 1];
      assert lexer.text(members[0].key) != lexer.text(members[i + 1].key);
    }
  }

  lemma ReadKeyComplete(before: seq<Byte>, key: seq<Byte>, beforeColon: seq<Byte>, rest: seq<Byte>, seen: set<string>,
                        lexer: Lexer)
    requires AllBlank(before) && AllBlank(beforeColon) && KeyToken(key, lexer) && Spelled(lexer.text(key)) !in seen
    ensures ReadKey(KeyText(before, key, beforeColon) + rest, seen, lexer) == Some((before, key, beforeColon, rest))
  {
    hide ReadText, StringEnd;
    var colon := [COLON] + rest;
    var keyed := beforeColon + colon;
    var text := key + keyed;
    Regroup(before + key + beforeColon, [COLON], rest);
    Regroup(before + key, beforeColon, colon);
    Regroup(before, key, keyed);
    BlanksExact(before, text);
    Cut(before, text);
    ReadTextComplete(key, keyed, lexer);
    BlanksExact(beforeColon, colon);
    Cut(beforeColon, colon);
    assert colon[1..] == rest;
  }

  lemma {:induction false} ReadMemberComplete(m: Member, rest: seq<Byte>, depth: nat, seen: set<string>, lexer: Lexer)
    requires MemberLegal(m, depth, lexer) && Spelled(lexer.text(m.key)) !in seen
    requires rest != [] && IsDelimiter(rest[0]) && !IsBlank(rest[0])
    ensures ReadMember(Head(m) + rest, depth, seen, lexer) == Some((m, rest))
    decreases m.tree, 4
  {
    hide ReadItem, ReadKey, Print, Legal, Head, KeyText, ItemText, KeyToken;
    var item := Item(m.afterColon, m.tree, m.after);
    HeadIs(m);
    Regroup(KeyText(m.before, m.key, m.beforeColon), ItemText(item), rest);
    ReadKeyComplete(m.before, m.key, m.beforeColon, ItemText(item) + rest, seen, lexer);
    ReadItemComplete(item, rest, depth, lexer);
  }
}
