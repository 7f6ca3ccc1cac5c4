/** The texts of JSON values, byte by byte, and the values they stand for. */
module JsonMeaning {
  import opened Basics
  import opened ByteStrings
  import opened JsonText

  /** The parts with commas between them. */
  function Separated(parts: seq<seq<Byte>>): seq<Byte> {
    if parts == [] then [] else parts[0] + if |parts| == 1 then [] else [0x2C] + Separated(parts[1..])
  }

  function ItemTexts(items: seq<Item>): seq<seq<Byte>> {
    seq(|items|, i requires 0 <= i < |items| => items[i].before + Print(items[i].tree) + items[i].after)
  }

  function MemberTexts(members: seq<Member>): seq<seq<Byte>> {
    seq(|members|, i requires 0 <= i < |members| =>
      var m := members[i];
      m.before + m.key + m.beforeColon + [0x3A] + m.afterColon + Print(m.tree) + m.after)
  }

  lemma {:induction false} ItemsText(items: seq<Item>)
    requires items != []
    ensures PrintItems(items) == Separated(ItemTexts(items)) + [0x5D]
  {
    var texts := ItemTexts(items);
    if |items| > 1 {
      ItemsText(items[1..]);
      assert texts[1..] == ItemTexts(items[1..]);
    }
  }

  lemma {:induction false} MembersText(members: seq<Member>)
    requires members != []
    ensures PrintMembers(members) == Separated(MemberTexts(members)) + [0x7D]
  {
    var texts := MemberTexts(members);
    if |members| > 1 {
      MembersText(members[1..]);
      assert texts[1..] == MemberTexts(members[1..]);
    }
  }

  /** The text of a value: the three words, a number or string as it was spelled, an array in brackets and an object
      in braces, with commas between the parts and a colon in every member. */
  lemma TextOfValue(tree: Tree)
    ensures match tree
            case Null => Print(tree) == [0x6E, 0x75, 0x6C, 0x6C]
            case Bool(true) => Print(tree) == [0x74, 0x72, 0x75, 0x65]
            case Bool(false) => Print(tree) == [0x66, 0x61, 0x6C, 0x73, 0x65]
            case Number(token) => Print(tree) == token
            case Text(token) => Print(tree) == token
            case Array(blank, items) =>
              Print(tree) == [0x5B] + (if items == [] then blank else Separated(ItemTexts(items))) + [0x5D]
            case Object(blank, members) =>
              Print(tree) == [0x7B] + (if members == [] then blank else Separated(MemberTexts(members))) + [0x7D]
  {
    match tree
    case Array(_, items) =>
      if items != [] {
        ItemsText(items);
      }
    case Object(_, members) =>
      if members != [] {
        MembersText(members);
      }
    case _ =>
  }

  lemma {:induction false} ElementsMean(items: seq<Item>, lexer: Lexer, i: nat)
    requires i < |items|
    ensures Elements(items, lexer)[i] == ValueOf(items[i].tree, lexer)
  {
    if i > 0 {
      ElementsMean(items[1..], lexer, i - 1);
    }
  }

  lemma {:induction false} EntriesMean(members: seq<Member>, lexer: Lexer)
    requires DistinctKeys(members, lexer)
    requires forall i :: 0 <= i < |members| ==> lexer.text(members[i].key).Some?
    ensures forall key :: key in Entries(members, lexer) <==>
              exists i :: 0 <= i < |members| && lexer.text(members[i].key) == Some(key)
    ensures forall i :: 0 <= i < |members| ==>
              var key := lexer.text(members[i].key).value;
              key in Entries(members, lexer) && Entries(members, lexer)[key] == ValueOf(members[i].tree, lexer)
  {
    hide ValueOf;
    if members != [] {
      var rest := members[1..];
      EntriesMean(rest, lexer);
      forall i | 0 <= i < |members|
        ensures var key := lexer.text(members[i].key).value;
                key in Entries(members, lexer) && Entries(members, lexer)[key] == ValueOf(members[i].tree, lexer)
      {
        if i > 0 {
          assert rest[i - 1] == members[i];
        } else {
          forall k | 0 <= k < |rest| ensures lexer.text(rest[k].key) != lexer.text(members[0].key) {
            assert rest[k] == members[k + 1];
          }
        }
      }
      forall key ensures key in Entries(members, lexer) <==>
                         exists i :: 0 <= i < |members| && lexer.text(members[i].key) == Some(key) {
        if key in Entries(rest, lexer) {
          var k :| 0 <= k < |rest| && lexer.text(rest[k].key) == Some(key);
          assert members[k + 1] == rest[k];
        }
      }
    }
  }

  /** The value of a text: null and the booleans by their words, a number or string as the lexer reads its token, the
      elements of an array in their order, and the members of an object under their keys. */
  lemma ValueOfText(tree: Tree, depth: nat, lexer: Lexer)
    requires Legal(tree, depth, lexer)
    ensures match tree
            case Null => ValueOf(tree, lexer) == JNull
            case Bool(b) => ValueOf(tree, lexer) == JBool(b)
            case Number(token) =>
              ValueOf(tree, lexer).JNumber? && lexer.number(token) == Some(ValueOf(tree, lexer).number)
            case Text(token) => ValueOf(tree, lexer).JString? && lexer.text(token) == Some(ValueOf(tree, lexer).text)
            case Array(_, items) =>
              && ValueOf(tree, lexer).JArray? && |ValueOf(tree, lexer).elements| == |items|
              && forall i :: 0 <= i < |items| ==>
                   ValueOf(tree, lexer).elements[i] == ValueOf(items[i].tree, lexer)
            case Object(_, members) =>
              && ValueOf(tree, lexer).JObject?
              && (forall key :: key in ValueOf(tree, lexer).entries <==>
                    exists i :: 0 <= i < |members| && lexer.text(members[i].key) == Some(key))
              && forall i :: 0 <= i < |members| ==>
                   && lexer.text(members[i].key).Some?
                   && lexer.text(members[i].key).value in ValueOf(tree, lexer).entries
                   && ValueOf(tree, lexer).entries[lexer.text(members[i].key).value] == ValueOf(members[i].tree, lexer)
  {
    match tree
    case Array(_, items) =>
      forall i | 0 <= i < |items| ensures Elements(items, lexer)[i] == ValueOf(items[i].tree, lexer) {
        ElementsMean(items, lexer, i);
      }
    case Object(_, members) =>
      EntriesMean(members, lexer);
    case _ =>
  }
}
