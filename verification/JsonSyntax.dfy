/**
  JSON trees, their text, and the calls on the writer that describe them.
  Numbers carry the value strtod gives; strings are NUL-terminated C strings.
 */
module JsonSyntax {
  import opened CText
  import Decimal

  const MAX_DEPTH := 32
  const TWO_TO_THE_53 := 0x20_0000_0000_0000
  const TWO_TO_THE_63 := 0x8000_0000_0000_0000

  datatype Value =
    | Null
    | Bool(b: bool)
    | Number(n: real)
    | String(s: cstring)
    | Array(items: seq<Value>)
    | Object(members: seq<Member>)

  datatype Member = Member(key: cstring, value: Value)

  /** One call on the writer; usbs_json_int and usbs_json_uint both print an Int. */
  datatype Call =
    | BeginObject
    | EndObject
    | BeginArray
    | EndArray
    | Key(k: cstring)
    | Str(s: cstring)
    | Int(i: int)
    | Boolean(b: bool)
    | Nil

  // ---- text ----

  function HexDigit(d: nat): (c: char)
    requires d < 16
  {
    (if d < 10 then 48 + d else 87 + d) as char
  }

  /** How one byte of a string is written. */
  function EscapeChar(c: char): (s: string) {
    match c as int
    case 34 => "\\\""
    case 92 => "\\\\"
    case 8 => "\\b"
    case 12 => "\\f"
    case 10 => "\\n"
    case 13 => "\\r"
    case 9 => "\\t"
    case code => if code < 0x20 then "\\u00" + [HexDigit(code / 16), HexDigit(code % 16)] else [c]
  }

  function Escaped(s: string): string {
    if s == [] then [] else EscapeChar(s[0]) + Escaped(s[1..])
  }

  function Quote(s: string): string {
    "\"" + Escaped(s) + "\""
  }

  function Comma(first: bool): string {
    if first then "" else ","
  }

  function Render(v: Value): string {
    match v
    case Null => "null"
    case Bool(b) => if b then "true" else "false"
    case Number(n) => Decimal.IntText(n.Floor)
    case String(s) => Quote(s)
    case Array(items) => "[" + RenderItems(items, true) + "]"
    case Object(members) => "{" + RenderMembers(members, true) + "}"
  }

  /** `first` says that no element precedes these in their container. */
  function RenderItems(items: seq<Value>, first: bool): string {
    if items == [] then "" else Comma(first) + Render(items[0]) + RenderItems(items[1..], false)
  }

  function RenderMember(m: Member): string {
    Quote(m.key) + ":" + Render(m.value)
  }

  function RenderMembers(members: seq<Member>, first: bool): string {
    if members == [] then ""
    else Comma(first) + RenderMember(members[0]) + RenderMembers(members[1..], false)
  }

  // ---- trees and nesting ----

  /** Every number is an integer that a double holds exactly. */
  ghost predicate ExactIntegers(v: Value) {
    match v
    case Number(n) => n == n.Floor as real && -TWO_TO_THE_53 <= n.Floor <= TWO_TO_THE_53
    case Array(items) => forall i | 0 <= i < |items| :: ExactIntegers(items[i])
    case Object(members) => forall i | 0 <= i < |members| :: ExactIntegers(members[i].value)
    case _ => true
  }

  /** Placed inside `d` containers, every value of `v` sits inside fewer than 32 containers. */
  ghost predicate Shallow(v: Value, d: nat) {
    && d < MAX_DEPTH
    && match v
       case Array(items) => forall i | 0 <= i < |items| :: Shallow(items[i], d + 1)
       case Object(members) => forall i | 0 <= i < |members| :: Shallow(members[i].value, d + 1)
       case _ => true
  }

  /** Placed inside `d` containers, no container of `v` is opened inside 32 others. */
  ghost predicate Nests(v: Value, d: nat) {
    match v
    case Array(items) => d < MAX_DEPTH && forall i | 0 <= i < |items| :: Nests(items[i], d + 1)
    case Object(members) => d < MAX_DEPTH && forall i | 0 <= i < |members| :: Nests(members[i].value, d + 1)
    case _ => true
  }

  // ---- the calls that describe a tree ----

  function Calls(v: Value): seq<Call> {
    match v
    case Null => [Nil]
    case Bool(b) => [Boolean(b)]
    case Number(n) => [Int(n.Floor)]
    case String(s) => [Str(s)]
    case Array(items) => [BeginArray] + ItemCalls(items) + [EndArray]
    case Object(members) => [BeginObject] + MemberCalls(members) + [EndObject]
  }

  function ItemCalls(items: seq<Value>): seq<Call> {
    if items == [] then [] else Calls(items[0]) + ItemCalls(items[1..])
  }

  function MemberCalls(members: seq<Member>): seq<Call> {
    if members == [] then []
    else [Key(members[0].key)] + Calls(members[0].value) + MemberCalls(members[1..])
  }

  lemma {:induction false} ItemCallsConcat(a: seq<Value>, b: seq<Value>)
    ensures ItemCalls(a + b) == ItemCalls(a) + ItemCalls(b)
  {
    if a == [] {
      assert a + b == b;
    } else {
      assert (a + b)[1..] == a[1..] + b;
      ItemCallsConcat(a[1..], b);
    }
  }

  lemma {:induction false} MemberCallsConcat(a: seq<Member>, b: seq<Member>)
    ensures MemberCalls(a + b) == MemberCalls(a) + MemberCalls(b)
  {
    if a == [] {
      assert a + b == b;
    } else {
      assert (a + b)[1..] == a[1..] + b;
      MemberCallsConcat(a[1..], b);
    }
  }

  /** A tree the reader's depth limit lets through is one the writer's limit lets through. */
  lemma {:induction false} ShallowNests(v: Value, d: nat)
    requires Shallow(v, d)
    ensures Nests(v, d)
  {
    match v
    case Array(items) =>
      forall i | 0 <= i < |items| ensures Nests(items[i], d + 1) {
        ShallowNests(items[i], d + 1);
      }
    case Object(members) =>
      forall i | 0 <= i < |members| ensures Nests(members[i].value, d + 1) {
        ShallowNests(members[i].value, d + 1);
      }
    case _ =>
  }
}
