/**
  The grammar of RFC 8259, sections 2 to 7, as derivation trees: each tree has a text and a meaning,
  and says nothing of how either is computed by src/core/json.c.  `strict` is the RFC; without it the
  grammar has what the reader lets through besides.
 */
module JsonGrammar {
  import opened CText
  import opened JsonSyntax
  import opened Decimal

  // ---- derivations ----

  /** One character of a string: as it is, after a backslash, or as four hexadecimal digits. */
  datatype Piece = Plain(c: char) | Short(c: char) | Unicode(hex: string)

  datatype Exponent = Exponent(mark: char, sign: string, digits: string)

  datatype Numeral = Numeral(minus: bool, whole: string, fraction: Option<string>, exponent: Option<Exponent>)

  /** `blank` is the white space of an empty container. */
  datatype Node =
    | Word(word: string)
    | Num(numeral: Numeral)
    | Quoted(pieces: seq<Piece>)
    | Items(blank: string, items: seq<Item>)
    | Entries(blank: string, entries: seq<Entry>)

  /** A value between white space. */
  datatype Item = Item(before: string, node: Node, after: string)

  datatype Entry = Entry(before: string, key: seq<Piece>, gap: string, item: Item)

  // ---- which derivations there are ----

  predicate Blank(s: string) {
    forall i | 0 <= i < |s| :: s[i] in {' ', '\t', '\n', '\r'}
  }

  /** Letter or digit of a number in base 16; 16 for anything else. */
  function HexOf(c: char): nat {
    if '0' <= c <= '9' then c as nat - '0' as nat
    else if 'a' <= c <= 'f' then 10 + (c as nat - 'a' as nat)
    else if 'A' <= c <= 'F' then 10 + (c as nat - 'A' as nat)
    else 16
  }

  predicate IsPiece(p: Piece, strict: bool) {
    match p
    case Plain(c) => c != '"' && c != '\\' && (strict ==> ' ' <= c)
    case Short(c) => c in {'"', '\\', '/', 'b', 'f', 'n', 'r', 't'}
    case Unicode(hex) => |hex| == 4 && HexOf(hex[0]) < 16 && HexOf(hex[1]) < 16 && HexOf(hex[2]) < 16 && HexOf(hex[3]) < 16
  }

  predicate ArePieces(ps: seq<Piece>, strict: bool) {
    forall i | 0 <= i < |ps| :: IsPiece(ps[i], strict)
  }

  predicate IsExponent(e: Exponent) {
    && (e.mark == 'e' || e.mark == 'E') && (e.sign == "" || e.sign == "+" || e.sign == "-")
    && AllDigits(e.digits) && e.digits != ""
  }

  /** Not strict: leading zeros, a bare point, and no whole part after a minus sign, in fewer than 64 characters. */
  predicate IsNumeral(n: Numeral, strict: bool) {
    && AllDigits(n.whole) && (n.fraction.Some? ==> AllDigits(n.fraction.value))
    && (n.exponent.Some? ==> IsExponent(n.exponent.value))
    && if strict then
         n.whole != "" && (|n.whole| > 1 ==> n.whole[0] != '0') && (n.fraction.Some? ==> n.fraction.value != "")
       else
         |NumeralText(n)| < 64 && (n.whole != "" || (n.minus && n.fraction.Some? && n.fraction.value != ""))
  }

  ghost predicate IsNode(n: Node, strict: bool) {
    match n
    case Word(word) => word == "true" || word == "false" || word == "null"
    case Num(numeral) => IsNumeral(numeral, strict)
    case Quoted(pieces) => ArePieces(pieces, strict)
    case Items(blank, items) =>
      Blank(blank) && (items != [] ==> blank == "") && forall i | 0 <= i < |items| :: IsItem(items[i], strict)
    case Entries(blank, entries) =>
      Blank(blank) && (entries != [] ==> blank == "") && forall i | 0 <= i < |entries| :: IsEntry(entries[i], strict)
  }

  ghost predicate IsItem(item: Item, strict: bool) {
    Blank(item.before) && IsNode(item.node, strict) && Blank(item.after)
  }

  ghost predicate IsEntry(e: Entry, strict: bool) {
    Blank(e.before) && ArePieces(e.key, strict) && Blank(e.gap) && IsItem(e.item, strict)
  }

  /** Placed inside `d` containers, every value sits inside fewer than 32. */
  ghost predicate Within(n: Node, d: nat) {
    && d < 32
    && match n
       case Items(_, items) => forall i | 0 <= i < |items| :: Within(items[i].node, d + 1)
       case Entries(_, entries) => forall i | 0 <= i < |entries| :: Within(entries[i].item.node, d + 1)
       case _ => true
  }

  // ---- their text ----

  function PieceText(p: Piece): string {
    match p
    case Plain(c) => [c]
    case Short(c) => ['\\', c]
    case Unicode(hex) => "\\u" + hex
  }

  function PiecesText(ps: seq<Piece>): string {
    if ps == [] then "" else PieceText(ps[0]) + PiecesText(ps[1..])
  }

  function StringText(ps: seq<Piece>): string {
    "\"" + PiecesText(ps) + "\""
  }

  function NumeralText(n: Numeral): string {
    (if n.minus then "-" else "") + n.whole + (if n.fraction.Some? then "." + n.fraction.value else "")
    + (if n.exponent.Some? then [n.exponent.value.mark] + n.exponent.value.sign + n.exponent.value.digits else "")
  }

  function NodeText(n: Node): string {
    match n
    case Word(word) => word
    case Num(numeral) => NumeralText(numeral)
    case Quoted(pieces) => StringText(pieces)
    case Items(blank, items) => "[" + (blank + ItemsText(items)) + "]"
    case Entries(blank, entries) => "{" + (blank + EntriesText(entries)) + "}"
  }

  function ItemText(item: Item): string {
    item.before + NodeText(item.node) + item.after
  }

  function ItemsText(items: seq<Item>): string {
    if items == [] then ""
    else ItemText(items[0]) + if |items| == 1 then "" else "," + ItemsText(items[1..])
  }

  function EntryText(e: Entry): string {
    e.before + StringText(e.key) + e.gap + ":" + ItemText(e.item)
  }

  function EntriesText(entries: seq<Entry>): string {
    if entries == [] then ""
    else EntryText(entries[0]) + if |entries| == 1 then "" else "," + EntriesText(entries[1..])
  }

  // ---- and their meaning ----

  /** The UTF-8 bytes of a code, a surrogate half taken by itself. */
  function Utf8Of(code: nat): string
    requires code < 0x1_0000
  {
    if code <= 0x7F then [code as char]
    else if code <= 0x7FF then [(192 + code / 64) as char, (128 + code % 64) as char]
    else [(224 + code / 64 / 64) as char, (128 + code / 64 % 64) as char, (128 + code % 64) as char]
  }

  /** The bytes a piece stands for. */
  function PieceBytes(p: Piece): string {
    match p
    case Plain(c) => [c]
    case Short('b') => [8 as char]
    case Short('t') => [9 as char]
    case Short('n') => [10 as char]
    case Short('f') => [12 as char]
    case Short('r') => [13 as char]
    case Short(c) => [c]
    case Unicode(hex) =>
      if IsPiece(p, true) then Utf8Of(((HexOf(hex[0]) * 16 + HexOf(hex[1])) * 16 + HexOf(hex[2])) * 16 + HexOf(hex[3])) else ""
  }

  function PiecesBytes(ps: seq<Piece>): string {
    if ps == [] then "" else PieceBytes(ps[0]) + PiecesBytes(ps[1..])
  }

  /** The tree: strings as C sees them, numbers as strtod reads them. */
  function NodeValue(n: Node, strtod: string -> real): Value {
    match n
    case Word(word) => if word == "true" then Bool(true) else if word == "false" then Bool(false) else Null
    case Num(numeral) => Number(strtod(NumeralText(numeral)))
    case Quoted(pieces) => String(CStr(PiecesBytes(pieces)))
    case Items(_, items) => Array(ItemValues(items, strtod))
    case Entries(_, entries) => Object(EntryValues(entries, strtod))
  }

  function ItemValues(items: seq<Item>, strtod: string -> real): seq<Value> {
    if items == [] then [] else [NodeValue(items[0].node, strtod)] + ItemValues(items[1..], strtod)
  }

  function EntryValues(entries: seq<Entry>, strtod: string -> real): seq<Member> {
    if entries == [] then []
    else
      [Member(CStr(PiecesBytes(entries[0].key)), NodeValue(entries[0].item.node, strtod))]
      + EntryValues(entries[1..], strtod)
  }

  /** A whole document with its text and its tree. */
  ghost predicate Derives(doc: Item, strict: bool, text: string, v: Value, strtod: string -> real) {
    IsItem(doc, strict) && ItemText(doc) == text && NodeValue(doc.node, strtod) == v
  }
}
