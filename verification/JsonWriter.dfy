/** The JSON writer of src/core/json.c: a stack machine with a sticky error. */
module JsonWriter {
  import opened CText
  import opened JsonSyntax
  import Decimal

  // ---- the machine as a value ----

  /** One open container; `wantKey` is kept for objects only. */
  datatype Level = ObjectLevel(needComma: bool, wantKey: bool) | ArrayLevel(needComma: bool)

  datatype State = State(text: string, levels: seq<Level>, error: Status)

  const INITIAL := State("", [], Fine)

  function WithTop(w: State, top: Level): State
    requires w.levels != []
  {
    w.(levels := w.levels[|w.levels| - 1 := top])
  }

  function BeforeValue(w: State): State {
    if w.error != Fine || w.levels == [] then w
    else
      match w.levels[|w.levels| - 1]
      case ObjectLevel(needComma, wantKey) =>
        if wantKey then w.(error := Internal) else WithTop(w, ObjectLevel(needComma, true))
      case ArrayLevel(needComma) =>
        WithTop(w.(text := w.text + Comma(!needComma)), ArrayLevel(true))
  }

  function Scalar(w: State, text: string): State {
    var w' := BeforeValue(w);
    if w'.error != Fine then w' else w'.(text := w'.text + text)
  }

  function Open(w: State, bracket: string, level: Level): State {
    var w' := BeforeValue(w);
    if w'.error != Fine then w'
    else if |w'.levels| >= MAX_DEPTH then w'.(error := Unsupported)
    else w'.(text := w'.text + bracket, levels := w'.levels + [level])
  }

  function Close(w: State, bracket: string, isObject: bool): State {
    if w.error != Fine then w
    else if w.levels == [] || w.levels[|w.levels| - 1].ObjectLevel? != isObject then w.(error := Internal)
    else w.(text := w.text + bracket, levels := w.levels[..|w.levels| - 1])
  }

  function PutKey(w: State, key: cstring): State {
    if w.error != Fine then w
    else if w.levels == [] || !w.levels[|w.levels| - 1].ObjectLevel? || !w.levels[|w.levels| - 1].wantKey then
      w.(error := Internal)
    else
      WithTop(w.(text := w.text + Comma(!w.levels[|w.levels| - 1].needComma) + Quote(key) + ":"),
              ObjectLevel(true, false))
  }

  function Step(w: State, call: Call): State {
    match call
    case BeginObject => Open(w, "{", ObjectLevel(false, true))
    case BeginArray => Open(w, "[", ArrayLevel(false))
    case EndObject => Close(w, "}", true)
    case EndArray => Close(w, "]", false)
    case Key(k) => PutKey(w, k)
    case Str(s) => Scalar(w, Quote(s))
    case Int(i) => Scalar(w, Decimal.IntText(i))
    case Boolean(b) => Scalar(w, if b then "true" else "false")
    case Nil => Scalar(w, "null")
  }

  function Run(w: State, calls: seq<Call>): State
    decreases |calls|
  {
    if calls == [] then w else Run(Step(w, calls[0]), calls[1..])
  }

  function Finish(w: State): Result<string> {
    if w.error != Fine then Failure(w.error)
    else if w.levels != [] || w.text == "" then Failure(Internal)
    else Success(w.text)
  }

  lemma {:induction false} RunConcat(w: State, a: seq<Call>, b: seq<Call>)
    ensures Run(w, a + b) == Run(Run(w, a), b)
    decreases |a|
  {
    if a == [] {
      assert a + b == b;
    } else {
      assert (a + b)[1..] == a[1..] + b;
      RunConcat(Step(w, a[0]), a[1..], b);
    }
  }

  lemma RunSnoc(w: State, calls: seq<Call>, call: Call)
    ensures Run(w, calls + [call]) == Step(Run(w, calls), call)
  {
    RunConcat(w, calls, [call]);
    assert [call][1..] == [];
  }

  /** Once set, the error stays and nothing more is written. */
  lemma {:induction false} ErrorIsSticky(w: State, calls: seq<Call>)
    requires w.error != Fine
    ensures Run(w, calls) == w
    decreases |calls|
  {
    if calls != [] {
      ErrorIsSticky(Step(w, calls[0]), calls[1..]);
    }
  }

  lemma EscapedHead(s: cstring, i: nat)
    requires i < |s|
    ensures Escaped(s[i..]) == EscapeChar(s[i]) + Escaped(s[i + 1..])
  {
    hide EscapeChar;
    assert s[i..][1..] == s[i + 1..];
  }

  lemma EscapedNothing(s: cstring)
    ensures Escaped(s[|s|..]) + "\"" == "\""
  {
  }

  lemma Regroup(a: string, b: string, c: string, d: string)
    ensures a + (b + c + d) == a + b + (c + d)
  {
  }

  /** Where a value may stand: anywhere but where a key is wanted. */
  lemma BeforeTells(w: State)
    requires w.error == Fine
    ensures |BeforeValue(w).levels| == |w.levels|
    ensures var wanting := w.levels != [] && w.levels[|w.levels| - 1].ObjectLevel? && w.levels[|w.levels| - 1].wantKey;
            BeforeValue(w).error == if wanting then Internal else Fine
  {
  }

  lemma NothingBefore(w: State)
    ensures w.error != Fine ==> BeforeValue(w) == w
  {
  }

  // ---- the writer object ----

  class Writer {
    var text: string
    var depth: int
    const isObject: array<bool>
    const needComma: array<bool>
    const wantKey: array<bool>
    var error: Status

    /** Every call made so far; the state is what those calls produce. */
    ghost var calls: seq<Call>
    ghost var levels: seq<Level>

    ghost predicate Shape()
      reads this, isObject, needComma, wantKey
    {
      && isObject.Length == needComma.Length == wantKey.Length == MAX_DEPTH
      && isObject != needComma && isObject != wantKey && needComma != wantKey
      && 0 <= depth == |levels| <= MAX_DEPTH
      && forall i | 0 <= i < depth ::
           levels[i] == if isObject[i] then ObjectLevel(needComma[i], wantKey[i]) else ArrayLevel(needComma[i])
    }

    ghost function Repr(): set<object>
    {
      {this, isObject, needComma, wantKey}
    }

    ghost function View(): State
      reads this
    {
      State(text, levels, error)
    }

    /** The innermost container is an object that wants a key. */
    ghost predicate Wanting()
      reads this, isObject, needComma, wantKey
      requires Shape()
    {
      depth > 0 && isObject[depth - 1] && wantKey[depth - 1]
    }

    ghost predicate Valid()
      reads this, isObject, needComma, wantKey
    {
      Shape() && View() == Run(INITIAL, calls)
    }

    constructor ()
      ensures Valid() && calls == [] && fresh(Repr())
    {
      text, depth, error := "", 0, Fine;
      isObject, needComma, wantKey := new bool[MAX_DEPTH], new bool[MAX_DEPTH], new bool[MAX_DEPTH];
      calls, levels := [], [];
    }

    method BeforeAValue()
      requires Shape()
      modifies Repr()
      ensures Shape() && calls == old(calls)
      ensures View() == BeforeValue(old(View()))
    {
      if error != Fine || depth == 0 {
        return;
      }
      if isObject[depth - 1] {
        if wantKey[depth - 1] {
          error := Internal;
          return;
        }
        wantKey[depth - 1] := true;
        levels := levels[depth - 1 := ObjectLevel(needComma[depth - 1], true)];
        return;
      }
      if needComma[depth - 1] {
        text := text + ",";
      }
      needComma[depth - 1] := true;
      levels := levels[depth - 1 := ArrayLevel(true)];
    }

    method PutEscaped(value: cstring)
      requires Shape()
      modifies this`text
      ensures text == old(text) + Quote(value)
    {
      hide EscapeChar, Escaped;
      ghost var start := text;
      text := text + "\"";
      assert value[0..] == value;
      for i := 0 to |value|
        invariant start + Quote(value) == text + (Escaped(value[i..]) + "\"")
      {
        EscapedHead(value, i);
        Regroup(text, EscapeChar(value[i]), Escaped(value[i + 1..]), "\"");
        text := text + EscapeChar(value[i]);
      }
      EscapedNothing(value);
      text := text + "\"";
    }

    method PutScalar(scalar: string, ghost call: Call)
      requires Valid()
      requires !call.BeginObject? && !call.BeginArray? && !call.EndObject? && !call.EndArray? && !call.Key?
      requires forall w :: Step(w, call) == Scalar(w, scalar)
      modifies Repr()
      ensures Valid() && calls == old(calls) + [call]
      ensures old(error) == Fine ==> error == (if old(Wanting()) then Internal else Fine)
    {
      hide Run;
      RunSnoc(INITIAL, calls, call);
      calls := calls + [call];
      if error != Fine {
        return;
      }
      BeforeAValue();
      if error != Fine {
        return;
      }
      text := text + scalar;
    }

    method BeginObject()
      requires Valid()
      modifies Repr()
      ensures Valid() && calls == old(calls) + [Call.BeginObject]
      ensures old(error) == Fine && old(Wanting()) ==> error == Internal
      ensures old(error) == Fine && !old(Wanting()) && old(depth) >= 32 ==> error == Unsupported
      ensures old(error) == Fine && !old(Wanting()) && old(depth) < 32 ==> error == Fine && depth == old(depth) + 1
    {
      hide Run, BeforeValue, Scalar, PutKey, Close;
      RunSnoc(INITIAL, calls, Call.BeginObject);
      calls := calls + [Call.BeginObject];
      NothingBefore(View());
      if error != Fine {
        return;
      }
      BeforeTells(View());
      BeforeAValue();
      if error != Fine {
        return;
      }
      if depth >= MAX_DEPTH {
        error := Unsupported;
        return;
      }
      text := text + "{";
      isObject[depth], needComma[depth], wantKey[depth] := true, false, true;
      levels := levels + [ObjectLevel(false, true)];
      depth := depth + 1;
    }

    method EndObject()
      requires Valid()
      modifies Repr()
      ensures Valid() && calls == old(calls) + [Call.EndObject]
      ensures old(error) == Fine ==> error == (if old(depth) > 0 && old(levels)[old(depth) - 1].ObjectLevel? then Fine else Internal)
    {
      hide Run;
      RunSnoc(INITIAL, calls, Call.EndObject);
      calls := calls + [Call.EndObject];
      if error != Fine {
        return;
      }
      if depth == 0 || !isObject[depth - 1] {
        error := Internal;
        return;
      }
      depth := depth - 1;
      levels := levels[..depth];
      text := text + "}";
    }

    method BeginArray()
      requires Valid()
      modifies Repr()
      ensures Valid() && calls == old(calls) + [Call.BeginArray]
      ensures old(error) == Fine && old(Wanting()) ==> error == Internal
      ensures old(error) == Fine && !old(Wanting()) && old(depth) >= 32 ==> error == Unsupported
      ensures old(error) == Fine && !old(Wanting()) && old(depth) < 32 ==> error == Fine && depth == old(depth) + 1
    {
      hide Run, BeforeValue, Scalar, PutKey, Close;
      RunSnoc(INITIAL, calls, Call.BeginArray);
      calls := calls + [Call.BeginArray];
      NothingBefore(View());
      if error != Fine {
        return;
      }
      BeforeTells(View());
      BeforeAValue();
      if error != Fine {
        return;
      }
      if depth >= MAX_DEPTH {
        error := Unsupported;
        return;
      }
      text := text + "[";
      isObject[depth], needComma[depth] := false, false;
      levels := levels + [ArrayLevel(false)];
      depth := depth + 1;
    }

    method EndArray()
      requires Valid()
      modifies Repr()
      ensures Valid() && calls == old(calls) + [Call.EndArray]
      ensures old(error) == Fine ==> error == (if old(depth) > 0 && old(levels)[old(depth) - 1].ArrayLevel? then Fine else Internal)
    {
      hide Run;
      RunSnoc(INITIAL, calls, Call.EndArray);
      calls := calls + [Call.EndArray];
      if error != Fine {
        return;
      }
      if depth == 0 || isObject[depth - 1] {
        error := Internal;
        return;
      }
      depth := depth - 1;
      levels := levels[..depth];
      text := text + "]";
    }

    method KeyText(key: cstring)
      requires Shape()
      requires depth > 0
      modifies this`text
      ensures text == old(text) + Comma(!needComma[depth - 1]) + Quote(key) + ":"
    {
      if needComma[depth - 1] {
        text := text + ",";
      }
      PutEscaped(key);
      text := text + ":";
    }

    method AKey(key: cstring)
      requires Shape()
      modifies Repr()
      ensures Shape() && calls == old(calls)
      ensures View() == PutKey(old(View()), key)
    {
      hide Quote, Escaped, Comma;
      if error != Fine {
        return;
      }
      if depth == 0 || !isObject[depth - 1] || !wantKey[depth - 1] {
        error := Internal;
        return;
      }
      KeyText(key);
      wantKey[depth - 1] := false;
      needComma[depth - 1] := true;
      levels := levels[depth - 1 := ObjectLevel(true, false)];
    }

    method Key(key: cstring)
      requires Valid()
      modifies Repr()
      ensures Valid() && calls == old(calls) + [Call.Key(key)]
      ensures old(error) == Fine ==> error == (if old(Wanting()) then Fine else Internal)
    {
      hide Run;
      RunSnoc(INITIAL, calls, Call.Key(key));
      AKey(key);
      calls := calls + [Call.Key(key)];
    }

    method PutString(value: cstring)
      requires Valid()
      modifies Repr()
      ensures Valid() && calls == old(calls) + [Str(value)]
      ensures old(error) == Fine ==> error == (if old(Wanting()) then Internal else Fine)
    {
      hide Run;
      RunSnoc(INITIAL, calls, Str(value));
      calls := calls + [Str(value)];
      if error != Fine {
        return;
      }
      BeforeAValue();
      if error != Fine {
        return;
      }
      PutEscaped(value);
    }

    method PutInt(value: int)
      requires Valid()
      modifies Repr()
      ensures Valid() && calls == old(calls) + [Int(value)]
      ensures old(error) == Fine ==> error == (if old(Wanting()) then Internal else Fine)
    {
      PutScalar(Decimal.IntText(value), Int(value));
    }

    method PutBool(value: bool)
      requires Valid()
      modifies Repr()
      ensures Valid() && calls == old(calls) + [Boolean(value)]
      ensures old(error) == Fine ==> error == (if old(Wanting()) then Internal else Fine)
    {
      PutScalar(if value then "true" else "false", Boolean(value));
    }

    method PutNull()
      requires Valid()
      modifies Repr()
      ensures Valid() && calls == old(calls) + [Nil]
      ensures old(error) == Fine ==> error == (if old(Wanting()) then Internal else Fine)
    {
      PutScalar("null", Nil);
    }

    method MemberString(key: cstring, value: cstring)
      requires Valid()
      modifies Repr()
      ensures Valid() && calls == old(calls) + MemberCalls([Member(key, String(value))])
    {
      Key(key);
      PutString(value);
    }

    method MemberInt(key: cstring, value: int)
      requires Valid()
      modifies Repr()
      ensures Valid() && calls == old(calls) + MemberCalls([Member(key, Number(value as real))])
    {
      Key(key);
      PutInt(value);
    }

    method MemberBool(key: cstring, value: bool)
      requires Valid()
      modifies Repr()
      ensures Valid() && calls == old(calls) + MemberCalls([Member(key, Bool(value))])
    {
      Key(key);
      PutBool(value);
    }

    method FinishDocument() returns (r: Result<string>)
      requires Valid()
      ensures r == Finish(Run(INITIAL, calls))
      ensures r == if error != Fine then Failure(error) else if depth != 0 || text == "" then Failure(Internal)
                   else Success(text)
    {
      if error != Fine {
        return Failure(error);
      }
      if depth != 0 {
        return Failure(Internal);
      }
      if text == "" {
        return Failure(Internal);
      }
      return Success(text);
    }
  }
}
