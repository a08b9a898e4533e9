/** The reader of src/core/json.c accepts exactly the grammar, down to the depth limit: whole trees. */
module JsonAcceptedTrees {
  import opened CText
  import opened JsonSyntax
  import opened JsonReader
  import opened JsonGrammar
  import opened JsonAccepted
  import opened Decimal

  /** What follows an item: a comma, a closing bracket, or the end of the text. */
  predicate Closes(rest: string) {
    rest == "" || rest[0] == ',' || rest[0] == ']' || rest[0] == '}'
  }

  ghost predicate AllItems(items: seq<Item>, d: nat) {
    forall i | 0 <= i < |items| :: IsItem(items[i], false) && Within(items[i].node, d)
  }

  ghost predicate AllEntries(entries: seq<Entry>, d: nat) {
    forall i | 0 <= i < |entries| :: IsEntry(entries[i], false) && Within(entries[i].item.node, d)
  }

  // ---- every derivation is read ----

  lemma NodeStarts(n: Node)
    requires IsNode(n, false)
    ensures NodeText(n) != "" && !IsWs(NodeText(n)[0])
    ensures NodeText(n)[0] != ']' && NodeText(n)[0] != '}' && NodeText(n)[0] != ','
    ensures NodeText(n)[0] == '{' <==> n.Entries?
    ensures NodeText(n)[0] == '[' <==> n.Items?
    ensures NodeText(n)[0] == '"' <==> n.Quoted?
    ensures n.Num? ==> NodeText(n)[0] == '-' || IsDigit(NodeText(n)[0])
  {
    hide NumeralText, IsNumeral;
    if n.Num? {
      NumeralStarts(n.numeral);
    }
  }

  lemma ReadLeaf(n: Node, rest: string, d: nat, strtod: string -> real)
    requires IsNode(n, false) && !n.Items? && !n.Entries? && d < MAX_DEPTH && Ends(rest)
    ensures ParseValue(NodeText(n) + rest, d, strtod) == Parsed(NodeValue(n, strtod), rest)
  {
    hide ParseNumber, ParseString, StringText, NumeralText, CStr, PiecesBytes, IsNumeral, ArePieces;
    var s := NodeText(n) + rest;
    NodeStarts(n);
    assert s[0] == NodeText(n)[0] && SkipWs(s) == s;
    match n
    case Word(word) =>
      assert word <= s && s[|word|..] == rest;
      assert word == "true" || word == "false" || word == "null";
    case Num(numeral) => ReadNumeral(numeral, rest, strtod);
    case Quoted(pieces) => ReadStringText(pieces, rest);
  }

  lemma {:induction false} ReadNode(n: Node, rest: string, d: nat, strtod: string -> real)
    requires IsNode(n, false) && Within(n, d) && Ends(rest)
    ensures ParseValue(NodeText(n) + rest, d, strtod) == Parsed(NodeValue(n, strtod), rest)
    decreases n, 1
  {
    hide ParseItems, ParseMembers, ItemsText, EntriesText, SkipWs, IsItem, IsEntry, ItemValues, EntryValues, Blank;
    match n
    case Items(blank, items) =>
      NodeSkips(n, rest);
      if items == [] {
        EmptyArray(blank, rest);
      } else {
        ArrayText(items, rest);
        ItemsSkip(items, "]" + rest, d, strtod);
        ReadItems(items, rest, d, [], strtod);
        assert [] + ItemValues(items, strtod) == ItemValues(items, strtod);
      }
    case Entries(blank, entries) =>
      NodeSkips(n, rest);
      if entries == [] {
        EmptyObject(blank, rest);
      } else {
        ObjectText(entries, rest);
        EntriesSkip(entries, "}" + rest, d, strtod);
        ReadEntries(entries, rest, d, [], strtod);
        assert [] + EntryValues(entries, strtod) == EntryValues(entries, strtod);
      }
    case _ => ReadLeaf(n, rest, d, strtod);
  }

  lemma ArrayText(items: seq<Item>, rest: string)
    ensures (NodeText(Items("", items)) + rest)[1..] == ItemsText(items) + ("]" + rest)
  {
    hide ItemsText;
    assert "" + ItemsText(items) == ItemsText(items);
  }

  lemma ObjectText(entries: seq<Entry>, rest: string)
    ensures (NodeText(Entries("", entries)) + rest)[1..] == EntriesText(entries) + ("}" + rest)
  {
    hide EntriesText;
    assert "" + EntriesText(entries) == EntriesText(entries);
  }

  lemma EmptyArray(blank: string, rest: string)
    requires Blank(blank)
    ensures var t := SkipWs((NodeText(Items(blank, [])) + rest)[1..]);
            t != "" && t[0] == ']' && t[1..] == rest
    ensures forall strtod :: ItemValues([], strtod) == []
  {
    hide SkipWs;
    assert (NodeText(Items(blank, [])) + rest)[1..] == blank + ("]" + rest);
    SkipBlank(blank, "]" + rest);
  }

  lemma EmptyObject(blank: string, rest: string)
    requires Blank(blank)
    ensures var t := SkipWs((NodeText(Entries(blank, [])) + rest)[1..]);
            t != "" && t[0] == '}' && t[1..] == rest
    ensures forall strtod :: EntryValues([], strtod) == []
  {
    hide SkipWs;
    assert (NodeText(Entries(blank, [])) + rest)[1..] == blank + ("}" + rest);
    SkipBlank(blank, "}" + rest);
  }

  lemma EmptyText(end: string)
    ensures ItemsText([]) + end == end && EntriesText([]) + end == end
  {
  }

  lemma NodeSkips(n: Node, rest: string)
    requires IsNode(n, false)
    ensures SkipWs(NodeText(n) + rest) == NodeText(n) + rest
    ensures (NodeText(n) + rest)[0] == NodeText(n)[0]
    ensures n.Items? ==> NodeText(n)[0] == '['
    ensures n.Entries? ==> NodeText(n)[0] == '{'
  {
    NodeStarts(n);
  }

  /** An item is read over its white space, which may also have been skipped already. */
  lemma ReadItem(item: Item, rest: string, d: nat, strtod: string -> real)
    requires IsItem(item, false) && Closes(rest)
    requires ParseValue(NodeText(item.node) + (item.after + rest), d, strtod)
          == Parsed(NodeValue(item.node, strtod), item.after + rest)
    ensures var s := ItemText(item) + rest;
            && ParseValue(s, d, strtod) == Parsed(NodeValue(item.node, strtod), item.after + rest)
            && ParseValue(SkipWs(s), d, strtod) == ParseValue(s, d, strtod)
            && SkipWs(s) != "" && SkipWs(s)[0] != ']' && SkipWs(s)[0] != '}'
    ensures SkipWs(item.after + rest) == rest && Ends(item.after + rest)
  {
    hide NodeText, NodeValue, IsNode, SkipWs, ParseValue, Blank, Closes, Ends;
    var text := NodeText(item.node) + (item.after + rest);
    assert ItemText(item) + rest == item.before + text;
    assert "" + text == text;
    NodeIsSolid(item.node, item.after + rest);
    ItemEnds(item, rest);
    ClosesSolid(rest);
    SkipBlank(item.before, text);
    SkipBlank("", text);
    SkipBlank(item.after, rest);
    SkipTwice(ItemText(item) + rest, text, d, strtod);
  }

  lemma NodeIsSolid(n: Node, rest: string)
    requires IsNode(n, false)
    ensures var text := NodeText(n) + rest;
            && Solid(text) && text != "" && text[0] != ']' && text[0] != '}' && Blank("")
  {
    NodeStarts(n);
  }

  lemma ClosesSolid(rest: string)
    requires Closes(rest)
    ensures Solid(rest)
  {
  }

  lemma SkipTwice(s: string, text: string, d: nat, strtod: string -> real)
    requires SkipWs(s) == text && SkipWs(text) == text
    ensures ParseValue(s, d, strtod) == ParseValue(text, d, strtod)
  {
    hide SkipWs, ParseObject, ParseArray, ParseString, ParseNumber;
  }

  lemma ItemEnds(item: Item, rest: string)
    requires Blank(item.after) && Closes(rest)
    ensures Ends(item.after + rest)
  {
  }

  lemma FirstOfItems(items: seq<Item>, end: string)
    requires items != [] && Closes(end)
    ensures ItemsText(items) + end == ItemText(items[0]) + (if |items| == 1 then end else "," + (ItemsText(items[1..]) + end))
  {
    hide ItemText;
    Commas(ItemText(items[0]), ItemsText(items[1..]), end);
  }

  lemma Commas(a: string, rest: string, end: string)
    ensures a + ("," + rest) + end == a + ("," + (rest + end)) && a + "" + end == a + end
  {
    assert ("," + rest) + end == "," + (rest + end);
    assert a + ("," + rest) + end == a + (("," + rest) + end);
    assert a + "" == a;
  }

  lemma ItemsStep(s: string, d: nat, before: seq<Value>, v: Value, after: string, strtod: string -> real)
    requires ParseValue(SkipWs(s), d + 1, strtod) == Parsed(v, after) && SkipWs(after) != ""
    ensures SkipWs(after)[0] == ',' ==>
              ParseItems(s, d, before, strtod) == ParseItems(SkipWs(after)[1..], d, before + [v], strtod)
    ensures SkipWs(after)[0] == ']' ==>
              ParseItems(s, d, before, strtod) == Parsed(Array(before + [v]), SkipWs(after)[1..])
  {
    hide ParseValue, SkipWs;
  }

  lemma ValuesOf(before: seq<Value>, items: seq<Item>, strtod: string -> real)
    requires items != []
    ensures before + ItemValues(items, strtod)
         == before + [NodeValue(items[0].node, strtod)] + ItemValues(items[1..], strtod)
    ensures |items| == 1 ==> ItemValues(items[1..], strtod) == []
  {
    hide NodeValue;
    var (first, others) := (NodeValue(items[0].node, strtod), ItemValues(items[1..], strtod));
    assert before + ([first] + others) == before + [first] + others;
  }

  lemma FirstOfAll(items: seq<Item>, d: nat)
    requires items != [] && AllItems(items, d)
    ensures IsItem(items[0], false) && Within(items[0].node, d) && AllItems(items[1..], d)
  {
    hide IsItem, Within;
  }

  lemma {:induction false} ReadItems(items: seq<Item>, rest: string, d: nat, before: seq<Value>, strtod: string -> real)
    requires items != [] && AllItems(items, d + 1)
    ensures ParseItems(ItemsText(items) + ("]" + rest), d, before, strtod)
         == Parsed(Array(before + ItemValues(items, strtod)), rest)
    decreases items, 0
  {
    hide *;
    var end := "]" + rest;
    var item := items[0];
    var tail := if |items| == 1 then end else "," + (ItemsText(items[1..]) + end);
    ClosesIs(tail);
    ClosesIs(end);
    FirstOfItems(items, end);
    FirstOfAll(items, d + 1);
    ItemParts(item);
    ItemEnds(item, tail);
    ReadNode(item.node, item.after + tail, d + 1, strtod);
    ReadItem(item, tail, d + 1, strtod);
    var v := NodeValue(item.node, strtod);
    ItemsStep(ItemsText(items) + end, d, before, v, item.after + tail, strtod);
    ValuesOf(before, items, strtod);
    assert end[1..] == rest;
    if |items| == 1 {
      assert before + [v] + [] == before + [v];
    } else {
      assert tail[1..] == ItemsText(items[1..]) + end;
      ReadItems(items[1..], rest, d, before + [v], strtod);
    }
  }

  lemma ClosesIs(rest: string)
    requires rest == "" || rest[0] == ',' || rest[0] == ']' || rest[0] == '}'
    ensures Closes(rest)
  {
  }

  lemma ItemParts(item: Item)
    requires IsItem(item, false)
    ensures IsNode(item.node, false) && Blank(item.before) && Blank(item.after)
  {
  }

  lemma ItemsSkip(items: seq<Item>, end: string, d: nat, strtod: string -> real)
    requires items != [] && (forall i | 0 <= i < |items| :: IsItem(items[i], false)) && end != "" && end[0] == ']'
    ensures var s := ItemsText(items) + end;
            && SkipWs(s) != "" && SkipWs(s)[0] != ']'
            && ParseItems(SkipWs(s), d, [], strtod) == ParseItems(s, d, [], strtod)
  {
    hide IsItem, NodeText, ParseItems, ItemsText;
    FirstOfItems(items, end);
    var item := items[0];
    ItemParts(item);
    NodeStarts(item.node);
    var tail := if |items| == 1 then end else "," + (ItemsText(items[1..]) + end);
    var text := NodeText(item.node) + (item.after + tail);
    assert ItemText(item) + tail == item.before + text;
    SkipBlank(item.before, text);
    SkipBlank("", text);
    assert "" + text == text;
    SameItems(ItemsText(items) + end, text, d, strtod);
  }

  lemma SameItems(s: string, text: string, d: nat, strtod: string -> real)
    requires SkipWs(s) == text && SkipWs(text) == text
    ensures ParseItems(s, d, [], strtod) == ParseItems(text, d, [], strtod)
    ensures ParseMembers(s, d, [], strtod) == ParseMembers(text, d, [], strtod)
  {
    hide ParseValue, ParseString;
  }

  lemma ReadEntry(e: Entry, rest: string, d: nat, strtod: string -> real)
    requires IsEntry(e, false) && Closes(rest)
    requires ParseValue(NodeText(e.item.node) + (e.item.after + rest), d + 1, strtod)
          == Parsed(NodeValue(e.item.node, strtod), e.item.after + rest)
    ensures ParseMember(EntryText(e) + rest, d, strtod)
         == Parsed(Member(CStr(PiecesBytes(e.key)), NodeValue(e.item.node, strtod)), e.item.after + rest)
    ensures SkipWs(e.item.after + rest) == rest
  {
    hide NodeText, NodeValue, IsItem, ItemText, StringText, ParseString, ParseValue, ArePieces, SkipWs, PiecesBytes, CStr;
    var value := ItemText(e.item) + rest;
    var colon := ":" + value;
    var key := StringText(e.key) + (e.gap + colon);
    assert EntryText(e) + rest == e.before + key;
    KeyStarts(e.key, e.gap + colon);
    SkipBlank(e.before, key);
    ReadStringText(e.key, e.gap + colon);
    SkipBlank(e.gap, colon);
    assert colon[1..] == value;
    ReadItem(e.item, rest, d + 1, strtod);
  }

  lemma KeyStarts(key: seq<Piece>, rest: string)
    ensures (StringText(key) + rest)[0] == '"' && Solid(StringText(key) + rest)
  {
  }

  lemma FirstOfEntries(entries: seq<Entry>, end: string)
    requires entries != [] && Closes(end)
    ensures EntriesText(entries) + end
         == EntryText(entries[0]) + (if |entries| == 1 then end else "," + (EntriesText(entries[1..]) + end))
  {
    hide EntryText;
    Commas(EntryText(entries[0]), EntriesText(entries[1..]), end);
  }

  lemma EntriesStep(s: string, d: nat, before: seq<Member>, m: Member, after: string, strtod: string -> real)
    requires ParseMember(s, d, strtod) == Parsed(m, after) && SkipWs(after) != ""
    ensures SkipWs(after)[0] == ',' ==>
              ParseMembers(s, d, before, strtod) == ParseMembers(SkipWs(after)[1..], d, before + [m], strtod)
    ensures SkipWs(after)[0] == '}' ==>
              ParseMembers(s, d, before, strtod) == Parsed(Object(before + [m]), SkipWs(after)[1..])
  {
    hide ParseMember, SkipWs;
  }

  lemma EntryParts(e: Entry)
    requires IsEntry(e, false)
    ensures IsItem(e.item, false) && Blank(e.before) && Blank(e.gap) && ArePieces(e.key, false)
  {
  }

  lemma MembersOf(before: seq<Member>, entries: seq<Entry>, strtod: string -> real)
    requires entries != []
    ensures before + EntryValues(entries, strtod)
         == before + [Member(CStr(PiecesBytes(entries[0].key)), NodeValue(entries[0].item.node, strtod))]
            + EntryValues(entries[1..], strtod)
    ensures |entries| == 1 ==> EntryValues(entries[1..], strtod) == []
  {
    hide NodeValue, PiecesBytes, CStr;
  }

  lemma FirstOfAllEntries(entries: seq<Entry>, d: nat)
    requires entries != [] && AllEntries(entries, d)
    ensures IsEntry(entries[0], false) && Within(entries[0].item.node, d) && AllEntries(entries[1..], d)
  {
    hide IsEntry, Within;
  }

  lemma {:induction false} ReadEntries(entries: seq<Entry>, rest: string, d: nat, before: seq<Member>, strtod: string -> real)
    requires entries != [] && AllEntries(entries, d + 1)
    ensures ParseMembers(EntriesText(entries) + ("}" + rest), d, before, strtod)
         == Parsed(Object(before + EntryValues(entries, strtod)), rest)
    decreases entries, 0
  {
    hide *;
    var end := "}" + rest;
    var e := entries[0];
    var tail := if |entries| == 1 then end else "," + (EntriesText(entries[1..]) + end);
    ClosesIs(tail);
    ClosesIs(end);
    FirstOfEntries(entries, end);
    FirstOfAllEntries(entries, d + 1);
    EntryParts(e);
    ItemParts(e.item);
    ItemEnds(e.item, tail);
    ReadNode(e.item.node, e.item.after + tail, d + 1, strtod);
    ReadEntry(e, tail, d, strtod);
    var m := Member(CStr(PiecesBytes(e.key)), NodeValue(e.item.node, strtod));
    EntriesStep(EntriesText(entries) + end, d, before, m, e.item.after + tail, strtod);
    MembersOf(before, entries, strtod);
    assert end[1..] == rest;
    if |entries| == 1 {
      assert before + [m] + [] == before + [m];
    } else {
      assert tail[1..] == EntriesText(entries[1..]) + end;
      ReadEntries(entries[1..], rest, d, before + [m], strtod);
    }
  }

  lemma EntriesSkip(entries: seq<Entry>, end: string, d: nat, strtod: string -> real)
    requires entries != [] && (forall i | 0 <= i < |entries| :: IsEntry(entries[i], false)) && end != "" && end[0] == '}'
    ensures var s := EntriesText(entries) + end;
            && SkipWs(s) != "" && SkipWs(s)[0] != '}'
            && ParseMembers(SkipWs(s), d, [], strtod) == ParseMembers(s, d, [], strtod)
  {
    hide IsEntry, StringText, ItemText, ParseMembers, EntriesText;
    FirstOfEntries(entries, end);
    var e := entries[0];
    EntryParts(e);
    var tail := if |entries| == 1 then end else "," + (EntriesText(entries[1..]) + end);
    var after := e.gap + ":" + ItemText(e.item) + tail;
    var text := StringText(e.key) + after;
    assert EntryText(e) + tail == e.before + text;
    KeyStarts(e.key, after);
    SkipBlank(e.before, text);
    SkipBlank("", text);
    assert "" + text == text;
    SameItems(EntriesText(entries) + end, text, d, strtod);
  }

  /** Every text of the grammar that is not nested too deeply is accepted, as what it means. */
  lemma DerivedIsAccepted(doc: Item, text: string, v: Value, strtod: string -> real)
    requires Derives(doc, false, text, v, strtod) && Within(doc.node, 0)
    ensures Parse(text, strtod) == Success(v)
  {
    hide IsNode, NodeText, NodeValue, Within, ParseValue, SkipWs;
    assert doc.after + "" == doc.after && ItemText(doc) + "" == text;
    ItemEnds(doc, "");
    ReadNode(doc.node, doc.after + "", 0, strtod);
    ReadItem(doc, "", 0, strtod);
  }

  // ---- whatever is read has a derivation ----

  lemma LeafOf(s: string, d: nat, strtod: string -> real) returns (n: Node)
    requires ParseValue(s, d, strtod).Parsed? && SkipWs(s) == s && s[0] != '{' && s[0] != '['
    ensures IsNode(n, false) && Within(n, d) && s == NodeText(n) + ParseValue(s, d, strtod).rest
    ensures NodeValue(n, strtod) == ParseValue(s, d, strtod).value
  {
    hide ParseNumber, ParseString, StringText, NumeralText, PiecesBytes, CStr, ArePieces, IsNumeral;
    var rest := ParseValue(s, d, strtod).rest;
    if s[0] == '"' {
      var ps := StringOf(s);
      n := Quoted(ps);
    } else if s[0] == '-' || IsDigit(s[0]) {
      var numeral := NumberOf(s, strtod);
      n := Num(numeral);
    } else {
      n := Word(if s[0] == 't' then "true" else if s[0] == 'f' then "false" else "null");
      assert s == NodeText(n) + s[|NodeText(n)|..];
    }
  }

  lemma NumberOf(s: string, strtod: string -> real) returns (n: Numeral)
    requires ParseNumber(s, strtod).Parsed? && s != "" && (s[0] == '-' || IsDigit(s[0]))
    ensures IsNumeral(n, false) && s == NumeralText(n) + ParseNumber(s, strtod).rest
    ensures ParseNumber(s, strtod).value == strtod(NumeralText(n))
  {
    hide TokenLength, StrtodConsumes, NumeralText, IsNumeral;
    n := NumeralOf(s);
    assert s == s[..TokenLength(s)] + s[TokenLength(s)..];
  }

  lemma {:induction false} NodeOf(s: string, d: nat, strtod: string -> real) returns (n: Node)
    requires ParseValue(s, d, strtod).Parsed? && SkipWs(s) == s
    ensures IsNode(n, false) && Within(n, d) && s == NodeText(n) + ParseValue(s, d, strtod).rest
    ensures NodeValue(n, strtod) == ParseValue(s, d, strtod).value
    decreases |s|, 1
  {
    hide ParseItems, ParseMembers, ItemsText, EntriesText, SkipWs, ParseString, ParseNumber, IsItem, IsEntry, NodeText, Within;
    var rest := ParseValue(s, d, strtod).rest;
    if s[0] == '{' {
      var blank := SkippedBlank(s[1..]);
      var t := SkipWs(s[1..]);
      assert s == "{" + s[1..];
      if t != "" && t[0] == '}' {
        assert t == "}" + rest;
        n := Entries(blank, []);
        EmptyNode(blank, s, rest, d);
      } else {
        SkipsOn(t);
        var entries := EntriesOf(t, d, [], strtod);
        var first := entries[0].(before := blank + entries[0].before);
        n := Entries("", [first] + entries[1..]);
        EntriesNode(entries, blank, s, t, rest, d, strtod);
      }
    } else if s[0] == '[' {
      var blank := SkippedBlank(s[1..]);
      var t := SkipWs(s[1..]);
      assert s == "[" + s[1..];
      if t != "" && t[0] == ']' {
        assert t == "]" + rest;
        n := Items(blank, []);
        EmptyNode(blank, s, rest, d);
      } else {
        SkipsOn(t);
        var items := ItemsOf(t, d, [], strtod);
        var first := items[0].(before := blank + items[0].before);
        n := Items("", [first] + items[1..]);
        ItemsNode(items, blank, s, t, rest, d, strtod);
      }
    } else {
      n := LeafOf(s, d, strtod);
    }
  }

  lemma SkipsOn(s: string)
    requires Solid(s)
    ensures SkipWs(s) == s
  {
  }

  lemma EmptyNode(blank: string, s: string, rest: string, d: nat)
    requires Blank(blank) && d < MAX_DEPTH
    ensures s == "{" + (blank + ("}" + rest)) ==> s == NodeText(Entries(blank, [])) + rest
    ensures s == "[" + (blank + ("]" + rest)) ==> s == NodeText(Items(blank, [])) + rest
    ensures IsNode(Entries(blank, []), false) && IsNode(Items(blank, []), false)
    ensures Within(Entries(blank, []), d) && Within(Items(blank, []), d)
  {
    assert blank + "" == blank;
    assert "{" + blank + "}" + rest == "{" + (blank + ("}" + rest));
    assert "[" + blank + "]" + rest == "[" + (blank + ("]" + rest));
  }

  lemma BlankConcat(a: string, b: string)
    requires Blank(a) && Blank(b)
    ensures Blank(a + b)
  {
  }

  /** White space before the first item belongs to the item. */
  lemma ItemsNode(items: seq<Item>, blank: string, s: string, t: string, rest: string, d: nat, strtod: string -> real)
    requires items != [] && AllItems(items, d + 1) && Blank(blank) && d < MAX_DEPTH
    requires s == "[" + (blank + t) && t == ItemsText(items) + ("]" + rest)
    ensures var n := Items("", [items[0].(before := blank + items[0].before)] + items[1..]);
            && IsNode(n, false) && Within(n, d) && s == NodeText(n) + rest
            && NodeValue(n, strtod) == Array(ItemValues(items, strtod))
  {
    hide NodeText, NodeValue, IsNode, Within;
    var first := items[0].(before := blank + items[0].before);
    var all := [first] + items[1..];
    assert all[1..] == items[1..];
    BlankConcat(blank, items[0].before);
    FirstOfItems(items, "]" + rest);
    FirstOfItems(all, "]" + rest);
    var tail := if |items| == 1 then "]" + rest else "," + (ItemsText(items[1..]) + ("]" + rest));
    FirstBlank(items[0], blank, tail);
    assert s == "[" + (ItemsText(all) + ("]" + rest));
    ItemsNodeIs(all, d, strtod, rest);
    AllItemsAgain(items, first, d + 1);
  }

  lemma FirstBlank(item: Item, blank: string, tail: string)
    ensures ItemText(item.(before := blank + item.before)) + tail == blank + (ItemText(item) + tail)
  {
    hide NodeText;
  }

  lemma AllItemsAgain(items: seq<Item>, first: Item, d: nat)
    requires items != [] && AllItems(items, d) && IsItem(first, false) && Within(first.node, d)
    ensures AllItems([first] + items[1..], d)
  {
    hide IsItem, Within;
  }

  lemma ItemsNodeIs(items: seq<Item>, d: nat, strtod: string -> real, rest: string)
    requires d < MAX_DEPTH
    ensures var n := Items("", items);
            && (AllItems(items, d + 1) ==> IsNode(n, false) && Within(n, d))
            && NodeText(n) + rest == "[" + (ItemsText(items) + ("]" + rest))
            && NodeValue(n, strtod) == Array(ItemValues(items, strtod))
  {
    hide IsItem, ItemsText;
    assert "" + ItemsText(items) == ItemsText(items);
    assert "[" + ItemsText(items) + "]" + rest == "[" + (ItemsText(items) + ("]" + rest));
  }

  lemma EntriesNode(entries: seq<Entry>, blank: string, s: string, t: string, rest: string, d: nat, strtod: string -> real)
    requires entries != [] && AllEntries(entries, d + 1) && Blank(blank) && d < MAX_DEPTH
    requires s == "{" + (blank + t) && t == EntriesText(entries) + ("}" + rest)
    ensures var n := Entries("", [entries[0].(before := blank + entries[0].before)] + entries[1..]);
            && IsNode(n, false) && Within(n, d) && s == NodeText(n) + rest
            && NodeValue(n, strtod) == Object(EntryValues(entries, strtod))
  {
    hide NodeText, NodeValue, IsNode, Within, IsItem, ItemText, StringText;
    var first := entries[0].(before := blank + entries[0].before);
    var all := [first] + entries[1..];
    assert all[1..] == entries[1..];
    BlankConcat(blank, entries[0].before);
    FirstOfEntries(entries, "}" + rest);
    FirstOfEntries(all, "}" + rest);
    var tail := if |entries| == 1 then "}" + rest else "," + (EntriesText(entries[1..]) + ("}" + rest));
    FirstEntryBlank(entries[0], blank, tail);
    assert s == "{" + (EntriesText(all) + ("}" + rest));
    EntriesNodeIs(all, d, strtod, rest);
    AllEntriesAgain(entries, first, d + 1);
  }

  lemma FirstEntryBlank(e: Entry, blank: string, tail: string)
    ensures EntryText(e.(before := blank + e.before)) + tail == blank + (EntryText(e) + tail)
  {
    hide EntryText, ItemText, StringText;
    EntryTextIs(e, tail);
    EntryTextIs(e.(before := blank + e.before), tail);
  }

  lemma AllEntriesAgain(entries: seq<Entry>, first: Entry, d: nat)
    requires entries != [] && AllEntries(entries, d) && IsEntry(first, false) && Within(first.item.node, d)
    ensures AllEntries([first] + entries[1..], d)
  {
    hide IsEntry, Within;
  }

  lemma EntriesNodeIs(entries: seq<Entry>, d: nat, strtod: string -> real, rest: string)
    requires d < MAX_DEPTH
    ensures var n := Entries("", entries);
            && (AllEntries(entries, d + 1) ==> IsNode(n, false) && Within(n, d))
            && NodeText(n) + rest == "{" + (EntriesText(entries) + ("}" + rest))
            && NodeValue(n, strtod) == Object(EntryValues(entries, strtod))
  {
    hide IsEntry, EntriesText;
    assert "" + EntriesText(entries) == EntriesText(entries);
    assert "{" + EntriesText(entries) + "}" + rest == "{" + (EntriesText(entries) + ("}" + rest));
  }

  /** A value and the white space around it. */
  lemma ItemOf(s: string, d: nat, strtod: string -> real) returns (item: Item)
    requires ParseValue(SkipWs(s), d, strtod).Parsed?
    ensures IsItem(item, false) && Within(item.node, d)
    ensures var p := ParseValue(SkipWs(s), d, strtod);
            s == ItemText(item) + SkipWs(p.rest) && NodeValue(item.node, strtod) == p.value
    decreases |s|, 2
  {
    hide ParseValue, SkipWs, NodeText, NodeValue, IsNode, Within;
    var before := SkippedBlank(s);
    SkipsOn(SkipWs(s));
    var n := NodeOf(SkipWs(s), d, strtod);
    var rest := ParseValue(SkipWs(s), d, strtod).rest;
    var after := SkippedBlank(rest);
    item := Item(before, n, after);
    assert s == before + (NodeText(n) + (after + SkipWs(rest)));
  }

  lemma {:induction false} ItemsOf(s: string, d: nat, before: seq<Value>, strtod: string -> real) returns (items: seq<Item>)
    requires ParseItems(s, d, before, strtod).Parsed?
    ensures items != [] && AllItems(items, d + 1) && s == ItemsText(items) + ("]" + ParseItems(s, d, before, strtod).rest)
    ensures ParseItems(s, d, before, strtod).value == Array(before + ItemValues(items, strtod))
    decreases |s|, 3
  {
    hide ParseValue, SkipWs, ItemText, NodeValue, IsItem, Within, ItemsText;
    var item := ItemOf(s, d + 1, strtod);
    var p := ParseValue(SkipWs(s), d + 1, strtod);
    var u := SkipWs(p.rest);
    var rest := ParseItems(s, d, before, strtod).rest;
    if u[0] == ',' {
      var others := ItemsOf(u[1..], d, before + [p.value], strtod);
      items := [item] + others;
      assert u == "," + u[1..];
      OneItem(item, others, "]" + rest);
      assert before + [p.value] + ItemValues(others, strtod) == before + ([p.value] + ItemValues(others, strtod));
      assert items[1..] == others;
    } else {
      items := [item];
      assert [item] + [] == items;
      OneItem(item, [], "]" + rest);
      assert u == "]" + u[1..];
      assert before + [p.value] == before + ([p.value] + []);
      assert items[1..] == [] && ItemValues([], strtod) == [];
    }
  }

  lemma OneItem(item: Item, others: seq<Item>, end: string)
    requires Closes(end)
    ensures ItemsText([item] + others) + end
         == ItemText(item) + (if others == [] then end else "," + (ItemsText(others) + end))
  {
    hide ItemText, ItemsText;
    assert ([item] + others)[1..] == others;
    FirstOfItems([item] + others, end);
  }

  lemma EntryOf(s: string, d: nat, strtod: string -> real) returns (e: Entry)
    requires ParseMember(s, d, strtod).Parsed?
    ensures IsEntry(e, false) && Within(e.item.node, d + 1)
    ensures var p := ParseMember(s, d, strtod);
            && s == EntryText(e) + SkipWs(p.rest)
            && p.value == Member(CStr(PiecesBytes(e.key)), NodeValue(e.item.node, strtod))
    decreases |s|, 3
  {
    hide ParseValue, ParseString, SkipWs, NodeValue, IsItem, Within, ItemText, StringText, PiecesBytes, CStr, ArePieces;
    var before := SkippedBlank(s);
    var key := StringOf(SkipWs(s));
    var afterKey := ParseString(SkipWs(s)).rest;
    var gap := SkippedBlank(afterKey);
    var t := SkipWs(afterKey);
    assert t == ":" + t[1..];
    var item := ItemOf(t[1..], d + 1, strtod);
    e := Entry(before, key, gap, item);
    EntryTextIs(e, SkipWs(ParseMember(s, d, strtod).rest));
  }

  lemma EntryTextIs(e: Entry, rest: string)
    ensures EntryText(e) + rest == e.before + (StringText(e.key) + (e.gap + (":" + (ItemText(e.item) + rest))))
  {
    hide ItemText, StringText;
  }

  lemma {:induction false} EntriesOf(s: string, d: nat, before: seq<Member>, strtod: string -> real) returns (entries: seq<Entry>)
    requires ParseMembers(s, d, before, strtod).Parsed?
    ensures entries != [] && AllEntries(entries, d + 1)
    ensures s == EntriesText(entries) + ("}" + ParseMembers(s, d, before, strtod).rest)
    ensures ParseMembers(s, d, before, strtod).value == Object(before + EntryValues(entries, strtod))
    decreases |s|, 4
  {
    hide ParseMember, SkipWs, EntryText, NodeValue, IsEntry, Within, EntriesText, PiecesBytes, CStr;
    var e := EntryOf(s, d, strtod);
    var p := ParseMember(s, d, strtod);
    var u := SkipWs(p.rest);
    var rest := ParseMembers(s, d, before, strtod).rest;
    if u[0] == ',' {
      var others := EntriesOf(u[1..], d, before + [p.value], strtod);
      entries := [e] + others;
      assert u == "," + u[1..];
      OneEntry(e, others, "}" + rest);
      assert before + [p.value] + EntryValues(others, strtod) == before + ([p.value] + EntryValues(others, strtod));
      assert entries[1..] == others;
    } else {
      entries := [e];
      assert [e] + [] == entries;
      OneEntry(e, [], "}" + rest);
      assert u == "}" + u[1..];
      assert before + [p.value] == before + ([p.value] + []);
      assert entries[1..] == [] && EntryValues([], strtod) == [];
    }
  }

  lemma OneEntry(e: Entry, others: seq<Entry>, end: string)
    requires Closes(end)
    ensures EntriesText([e] + others) + end
         == EntryText(e) + (if others == [] then end else "," + (EntriesText(others) + end))
  {
    hide EntryText, EntriesText;
    assert ([e] + others)[1..] == others;
    FirstOfEntries([e] + others, end);
  }

  // ---- exactly the grammar ----

  /**
    A text is read as a tree if and only if the grammar, with the reader's three liberties, derives the
    text with that tree as its meaning and no value sits inside 32 containers.
   */
  lemma AcceptedIffDerived(text: string, v: Value, strtod: string -> real)
    ensures Parse(text, strtod) == Success(v)
       <==> exists doc :: Derives(doc, false, text, v, strtod) && Within(doc.node, 0)
  {
    hide Derives, Within, ParseValue, SkipWs;
    if Parse(text, strtod) == Success(v) {
      var doc := DocumentOf(text, strtod);
      assert Derives(doc, false, text, v, strtod);
    }
    forall doc | Derives(doc, false, text, v, strtod) && Within(doc.node, 0)
      ensures Parse(text, strtod) == Success(v)
    {
      DerivedIsAccepted(doc, text, v, strtod);
    }
  }

  lemma DocumentOf(text: string, strtod: string -> real) returns (doc: Item)
    requires Parse(text, strtod).Success?
    ensures Derives(doc, false, text, Parse(text, strtod).value, strtod) && Within(doc.node, 0)
  {
    hide ParseValue, NodeText, NodeValue, IsNode, SkipWs, Within;
    var before := SkippedBlank(text);
    SkipsOn(SkipWs(text));
    SkipTwice(text, SkipWs(text), 0, strtod);
    doc := ItemOf(text, 0, strtod);
    assert ItemText(doc) + "" == ItemText(doc);
  }

  /** What RFC 8259 derives is accepted, unless a number has 64 characters or a value is 32 deep. */
  lemma {:induction false} StrictIsLax(n: Node)
    requires IsNode(n, true) && ShortNumbers(n)
    ensures IsNode(n, false)
  {
    match n
    case Items(_, items) =>
      forall i | 0 <= i < |items| ensures IsItem(items[i], false) { StrictIsLax(items[i].node); }
    case Entries(_, entries) =>
      forall i | 0 <= i < |entries| ensures IsEntry(entries[i], false) {
        assert IsEntry(entries[i], true);
        assert IsItem(entries[i].item, true);
        StrictIsLax(entries[i].item.node);
        assert IsItem(entries[i].item, false);
      }
    case _ =>
  }

  ghost predicate ShortNumbers(n: Node) {
    match n
    case Num(numeral) => |NumeralText(numeral)| < 64
    case Items(_, items) => forall i | 0 <= i < |items| :: ShortNumbers(items[i].node)
    case Entries(_, entries) => forall i | 0 <= i < |entries| :: ShortNumbers(entries[i].item.node)
    case _ => true
  }

  lemma JsonIsAccepted(doc: Item, text: string, v: Value, strtod: string -> real)
    requires Derives(doc, true, text, v, strtod) && ShortNumbers(doc.node) && Within(doc.node, 0)
    ensures Parse(text, strtod) == Success(v)
  {
    hide ParseValue, NodeText, NodeValue, IsNode, SkipWs, Within, Parse;
    StrictIsLax(doc.node);
    DerivedIsAccepted(doc, text, v, strtod);
  }

  // ---- why a text is rejected ----

  ghost predicate RejectedAs<T>(p: Parsed<T>) {
    p.Rejected? ==> p.status == InvalidArg || p.status == Unsupported
  }

  lemma {:induction false} CharsRejected(s: string, buffer: string)
    ensures ParseChars(s, buffer).Rejected? ==> ParseChars(s, buffer).status == InvalidArg
    decreases |s|
  {
    hide CStr, Encode, CodeOf;
    if s != "" && s[0] != '"' {
      if s[0] != '\\' {
        CharsRejected(s[1..], buffer + [s[0]]);
      } else if ParseEscape(s).Parsed? {
        CharsRejected(ParseEscape(s).rest, buffer + ParseEscape(s).value);
      }
    }
  }

  lemma StringRejected(s: string)
    ensures ParseString(s).Rejected? ==> ParseString(s).status == InvalidArg
  {
    hide ParseChars;
    if s != "" {
      CharsRejected(s[1..], "");
    }
  }

  lemma {:induction false} ValueRejected(s: string, d: nat, strtod: string -> real)
    ensures RejectedAs(ParseValue(s, d, strtod))
    decreases |s|, 1
  {
    hide ParseString, ParseNumber, ParseMembers, ParseItems, SkipWs;
    var t := SkipWs(s);
    if d < MAX_DEPTH && t != "" {
      StringRejected(t);
      NumberRejected(t, strtod);
      MembersRejected(SkipWs(t[1..]), d, [], strtod);
      ItemsRejected(SkipWs(t[1..]), d, [], strtod);
    }
  }

  lemma NumberRejected(s: string, strtod: string -> real)
    ensures ParseNumber(s, strtod).Rejected? ==> ParseNumber(s, strtod).status == InvalidArg
  {
    hide TokenLength, StrtodConsumes;
  }

  lemma {:induction false} MembersRejected(s: string, d: nat, members: seq<Member>, strtod: string -> real)
    ensures RejectedAs(ParseMembers(s, d, members, strtod))
    decreases |s|, 2
  {
    hide ParseString, ParseValue, SkipWs;
    StringRejected(SkipWs(s));
    var key := ParseString(SkipWs(s));
    if key.Parsed? {
      var t := SkipWs(key.rest);
      if t != "" && t[0] == ':' {
        ValueRejected(SkipWs(t[1..]), d + 1, strtod);
      }
      var m := ParseMember(s, d, strtod);
      if m.Parsed? {
        var u := SkipWs(m.rest);
        if u != "" && u[0] == ',' {
          MembersRejected(u[1..], d, members + [m.value], strtod);
        }
      }
    }
  }

  lemma {:induction false} ItemsRejected(s: string, d: nat, items: seq<Value>, strtod: string -> real)
    ensures RejectedAs(ParseItems(s, d, items, strtod))
    decreases |s|, 2
  {
    hide ParseValue, SkipWs;
    ValueRejected(SkipWs(s), d + 1, strtod);
    var v := ParseValue(SkipWs(s), d + 1, strtod);
    if v.Parsed? {
      var u := SkipWs(v.rest);
      if u != "" && u[0] == ',' {
        ItemsRejected(u[1..], d, items + [v.value], strtod);
      }
    }
  }

  /** A text that is not accepted is malformed or too deep, and no other error is reported. */
  lemma RejectedIs(text: string, strtod: string -> real)
    ensures Parse(text, strtod).Failure? ==>
              Parse(text, strtod).error == InvalidArg || Parse(text, strtod).error == Unsupported
  {
    hide ParseValue, SkipWs;
    ValueRejected(text, 0, strtod);
  }
}
