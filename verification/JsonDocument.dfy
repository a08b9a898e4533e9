/**
  What sequences of writer calls mean: a sequence that keeps the writer's discipline (each key
  followed by one value, one top-level value, containers closed in order) is the description of
  exactly one tree, and the writer turns it into that tree's text.
 */
module JsonDocument {
  import opened CText
  import opened JsonSyntax
  import opened JsonWriter

  // ---- the discipline ----

  datatype Frame =
    | ObjectFrame(members: seq<Member>, pending: Option<cstring>)
    | ArrayFrame(items: seq<Value>)

  /** The open containers, innermost on top. */
  datatype Frames = Bottom | On(below: Frames, top: Frame)

  /** A partly described document: the open containers and, once complete, the root. */
  datatype Doc = Doc(frames: Frames, root: Option<Value>)

  const EMPTY := Doc(Bottom, None)

  predicate CanPlace(d: Doc) {
    match d.frames
    case Bottom => d.root.None?
    case On(_, ObjectFrame(_, pending)) => pending.Some?
    case On(_, ArrayFrame(_)) => true
  }

  function Place(d: Doc, v: Value): Doc
    requires CanPlace(d)
  {
    match d.frames
    case Bottom => Doc(Bottom, Some(v))
    case On(below, ObjectFrame(members, pending)) =>
      d.(frames := On(below, ObjectFrame(members + [Member(pending.value, v)], None)))
    case On(below, ArrayFrame(items)) =>
      d.(frames := On(below, ArrayFrame(items + [v])))
  }

  function PlaceIfAllowed(d: Doc, v: Value): Option<Doc> {
    if CanPlace(d) then Some(Place(d, v)) else None
  }

  function Opened(d: Doc, frame: Frame): Doc {
    d.(frames := On(d.frames, frame))
  }

  /** None when the call breaks the discipline. */
  function Describe(d: Doc, call: Call): Option<Doc> {
    match call
    case Nil => PlaceIfAllowed(d, Null)
    case Boolean(b) => PlaceIfAllowed(d, Bool(b))
    case Int(i) => PlaceIfAllowed(d, Number(i as real))
    case Str(s) => PlaceIfAllowed(d, String(s))
    case BeginObject => if CanPlace(d) then Some(Opened(d, ObjectFrame([], None))) else None
    case BeginArray => if CanPlace(d) then Some(Opened(d, ArrayFrame([]))) else None
    case Key(k) =>
      (match d.frames
       case On(below, ObjectFrame(members, None)) => Some(d.(frames := On(below, ObjectFrame(members, Some(k)))))
       case _ => None)
    case EndObject =>
      (match d.frames
       case On(below, ObjectFrame(members, None)) => PlaceIfAllowed(d.(frames := below), Object(members))
       case _ => None)
    case EndArray =>
      (match d.frames
       case On(below, ArrayFrame(items)) => PlaceIfAllowed(d.(frames := below), Array(items))
       case _ => None)
  }

  function DescribeAll(d: Doc, calls: seq<Call>): Option<Doc>
    decreases |calls|
  {
    if calls == [] then Some(d)
    else
      match Describe(d, calls[0])
      case None => None
      case Some(d') => DescribeAll(d', calls[1..])
  }

  // ---- a disciplined sequence is the description of a tree ----

  function FrameCalls(f: Frame): seq<Call> {
    match f
    case ObjectFrame(members, pending) =>
      [BeginObject] + MemberCalls(members) + (if pending.Some? then [Key(pending.value)] else [])
    case ArrayFrame(items) => [BeginArray] + ItemCalls(items)
  }

  function OpenCalls(frames: Frames): seq<Call> {
    match frames
    case Bottom => []
    case On(below, top) => OpenCalls(below) + FrameCalls(top)
  }

  /** The calls that lead to a partly described document. */
  function CallsOf(d: Doc): seq<Call> {
    if d.root.Some? then Calls(d.root.value) else OpenCalls(d.frames)
  }

  lemma Regroup(a: seq<Call>, b: seq<Call>, c: seq<Call>)
    ensures a + (b + c) == a + b + c
  {
  }

  lemma MemberCallsSnoc(members: seq<Member>, m: Member)
    ensures MemberCalls(members + [m]) == MemberCalls(members) + ([Key(m.key)] + Calls(m.value))
  {
    hide Calls;
    MemberCallsConcat(members, [m]);
    assert [m][1..] == [];
    assert [Key(m.key)] + Calls(m.value) + [] == [Key(m.key)] + Calls(m.value);
  }

  lemma ItemCallsSnoc(items: seq<Value>, v: Value)
    ensures ItemCalls(items + [v]) == ItemCalls(items) + Calls(v)
  {
    hide Calls;
    ItemCallsConcat(items, [v]);
    assert [v][1..] == [];
    assert Calls(v) + [] == Calls(v);
  }

  lemma PlaceMemberCalls(below: seq<Call>, members: seq<Member>, key: cstring, v: Value)
    ensures below + FrameCalls(ObjectFrame(members + [Member(key, v)], None))
         == below + FrameCalls(ObjectFrame(members, Some(key))) + Calls(v)
  {
    hide Calls, MemberCalls;
    MemberCallsSnoc(members, Member(key, v));
    var open := [BeginObject] + MemberCalls(members);
    Regroup([BeginObject], MemberCalls(members), [Key(key)] + Calls(v));
    Regroup(open, [Key(key)], Calls(v));
    Regroup(below, open + [Key(key)], Calls(v));
    assert FrameCalls(ObjectFrame(members + [Member(key, v)], None)) == open + ([Key(key)] + Calls(v)) + [];
    assert open + ([Key(key)] + Calls(v)) + [] == open + ([Key(key)] + Calls(v));
  }

  lemma PlaceItemCalls(below: seq<Call>, items: seq<Value>, v: Value)
    ensures below + FrameCalls(ArrayFrame(items + [v])) == below + FrameCalls(ArrayFrame(items)) + Calls(v)
  {
    hide Calls, ItemCalls;
    ItemCallsSnoc(items, v);
    Regroup([BeginArray], ItemCalls(items), Calls(v));
    Regroup(below, FrameCalls(ArrayFrame(items)), Calls(v));
  }

  lemma PlaceCalls(d: Doc, v: Value)
    requires CanPlace(d) && (d.root.Some? ==> d.frames.Bottom?)
    ensures CallsOf(Place(d, v)) == CallsOf(d) + Calls(v)
  {
    match d.frames
    case Bottom =>
    case On(below, ObjectFrame(members, pending)) =>
      PlaceMemberCalls(OpenCalls(below), members, pending.value, v);
    case On(below, ArrayFrame(items)) =>
      PlaceItemCalls(OpenCalls(below), items, v);
  }

  lemma CloseCalls(below: seq<Call>, top: Frame, end: Call)
    ensures top.ArrayFrame? && end == EndArray ==>
              below + Calls(Array(top.items)) == below + FrameCalls(top) + [end]
    ensures top.ObjectFrame? && top.pending.None? && end == EndObject ==>
              below + Calls(Object(top.members)) == below + FrameCalls(top) + [end]
  {
    hide MemberCalls, ItemCalls;
    assert below + FrameCalls(top) + [end] == below + (FrameCalls(top) + [end]);
  }

  lemma DescribeAddsCall(d: Doc, call: Call)
    requires d.root.Some? ==> d.frames.Bottom?
    requires Describe(d, call).Some?
    ensures CallsOf(Describe(d, call).value) == CallsOf(d) + [call]
    ensures Describe(d, call).value.root.Some? ==> Describe(d, call).value.frames.Bottom?
  {
    match call
    case Nil => PlaceCalls(d, Null);
    case Boolean(b) => PlaceCalls(d, Bool(b));
    case Int(i) => PlaceCalls(d, Number(i as real));
    case Str(s) => PlaceCalls(d, String(s));
    case BeginObject =>
    case BeginArray =>
    case Key(k) =>
    case EndObject =>
      PlaceCalls(d.(frames := d.frames.below), Object(d.frames.top.members));
      CloseCalls(OpenCalls(d.frames.below), d.frames.top, call);
    case EndArray =>
      PlaceCalls(d.(frames := d.frames.below), Array(d.frames.top.items));
      CloseCalls(OpenCalls(d.frames.below), d.frames.top, call);
  }

  lemma {:induction false} DescribedCalls(d: Doc, calls: seq<Call>)
    requires d.root.Some? ==> d.frames.Bottom?
    requires DescribeAll(d, calls).Some?
    ensures CallsOf(DescribeAll(d, calls).value) == CallsOf(d) + calls
    decreases |calls|
  {
    hide Describe, CallsOf;
    if calls == [] {
      assert CallsOf(d) + calls == CallsOf(d);
    } else {
      DescribeAddsCall(d, calls[0]);
      DescribedCalls(Describe(d, calls[0]).value, calls[1..]);
      assert calls == [calls[0]] + calls[1..];
    }
  }

  /** Whole numbers only: what the writer can be asked to print. */
  ghost predicate Whole(v: Value) {
    match v
    case Number(n) => n == n.Floor as real
    case Array(items) => forall i | 0 <= i < |items| :: Whole(items[i])
    case Object(members) => forall i | 0 <= i < |members| :: Whole(members[i].value)
    case _ => true
  }

  lemma {:induction false} DescribeConcat(d: Doc, a: seq<Call>, b: seq<Call>)
    ensures DescribeAll(d, a + b)
         == if DescribeAll(d, a).None? then None else DescribeAll(DescribeAll(d, a).value, b)
    decreases |a|
  {
    if a == [] {
      assert a + b == b;
    } else {
      assert (a + b)[1..] == a[1..] + b;
      if Describe(d, a[0]).Some? {
        DescribeConcat(Describe(d, a[0]).value, a[1..], b);
      }
    }
  }

  lemma DescribeOne(d: Doc, call: Call)
    ensures DescribeAll(d, [call]) == Describe(d, call)
  {
    assert [call][1..] == [];
  }

  lemma DescribeShell(d: Doc, begin: Call, inner: seq<Call>, end: Call)
    requires Describe(d, begin).Some? && DescribeAll(Describe(d, begin).value, inner).Some?
    ensures DescribeAll(d, [begin] + inner + [end])
         == Describe(DescribeAll(Describe(d, begin).value, inner).value, end)
  {
    DescribeOne(d, begin);
    DescribeConcat(d, [begin], inner);
    DescribeConcat(d, [begin] + inner, [end]);
    DescribeOne(DescribeAll(Describe(d, begin).value, inner).value, end);
  }

  lemma {:induction false} DescribeArrayValue(d: Doc, items: seq<Value>)
    requires CanPlace(d) && forall i | 0 <= i < |items| :: Whole(items[i])
    ensures DescribeAll(d, Calls(Array(items))) == Some(Place(d, Array(items)))
    decreases items, 1
  {
    hide DescribeAll, ItemCalls, Whole;
    DescribeItems(Opened(d, ArrayFrame([])), [], items);
    assert [] + items == items;
    DescribeShell(d, BeginArray, ItemCalls(items), EndArray);
  }

  lemma {:induction false} DescribeObjectValue(d: Doc, members: seq<Member>)
    requires CanPlace(d) && forall i | 0 <= i < |members| :: Whole(members[i].value)
    ensures DescribeAll(d, Calls(Object(members))) == Some(Place(d, Object(members)))
    decreases members, 1
  {
    hide DescribeAll, MemberCalls, Whole;
    DescribeMembers(Opened(d, ObjectFrame([], None)), [], members);
    assert [] + members == members;
    DescribeShell(d, BeginObject, MemberCalls(members), EndObject);
  }

  lemma {:induction false} DescribeValue(d: Doc, v: Value)
    requires CanPlace(d) && Whole(v)
    ensures DescribeAll(d, Calls(v)) == Some(Place(d, v))
    decreases v, 2
  {
    hide DescribeAll, Place, CanPlace;
    match v
    case Array(items) => DescribeArrayValue(d, items);
    case Object(members) => DescribeObjectValue(d, members);
    case _ =>
      DescribeOne(d, Calls(v)[0]);
      assert Calls(v) == [Calls(v)[0]];
  }

  lemma {:induction false} DescribeItems(d: Doc, before: seq<Value>, items: seq<Value>)
    requires d.frames.On? && d.frames.top == ArrayFrame(before)
    requires forall i | 0 <= i < |items| :: Whole(items[i])
    ensures DescribeAll(d, ItemCalls(items))
         == Some(d.(frames := On(d.frames.below, ArrayFrame(before + items))))
    decreases items, 0
  {
    if items == [] {
      assert before + items == before;
    } else {
      DescribeValue(d, items[0]);
      DescribeConcat(d, Calls(items[0]), ItemCalls(items[1..]));
      DescribeItems(Place(d, items[0]), before + [items[0]], items[1..]);
      assert before + [items[0]] + items[1..] == before + items;
    }
  }

  lemma {:induction false} DescribeMembers(d: Doc, before: seq<Member>, members: seq<Member>)
    requires d.frames.On? && d.frames.top == ObjectFrame(before, None)
    requires forall i | 0 <= i < |members| :: Whole(members[i].value)
    ensures DescribeAll(d, MemberCalls(members))
         == Some(d.(frames := On(d.frames.below, ObjectFrame(before + members, None))))
    decreases members, 0
  {
    if members == [] {
      assert before + members == before;
    } else {
      var m := members[0];
      DescribeOne(d, Key(m.key));
      var keyed := Describe(d, Key(m.key)).value;
      DescribeValue(keyed, m.value);
      DescribeConcat(d, [Key(m.key)], Calls(m.value));
      DescribeConcat(d, [Key(m.key)] + Calls(m.value), MemberCalls(members[1..]));
      DescribeMembers(Place(keyed, m.value), before + [m], members[1..]);
      assert before + [m] + members[1..] == before + members;
    }
  }

  /**
    The disciplined, complete call sequences are exactly the descriptions of trees: a sequence
    describes `v` if and only if it is Calls(v).
   */
  lemma DisciplinedIffDescription(calls: seq<Call>, v: Value)
    requires Whole(v)
    ensures DescribeAll(EMPTY, calls) == Some(Doc(Bottom, Some(v))) <==> calls == Calls(v)
  {
    if DescribeAll(EMPTY, calls) == Some(Doc(Bottom, Some(v))) {
      DescribedCalls(EMPTY, calls);
      assert [] + calls == calls;
    }
    DescribeValue(EMPTY, v);
  }

  // ---- the writer on a description ----

  ghost predicate Overflowed(w: State) {
    w.error == Unsupported
  }

  lemma RunOne(w: State, call: Call)
    ensures Run(w, [call]) == Step(w, call)
  {
    RunSnoc(w, [], call);
    assert [] + [call] == [call];
  }

  lemma RunShell(w: State, begin: Call, inner: seq<Call>, end: Call)
    ensures Run(w, [begin] + inner + [end]) == Step(Run(Step(w, begin), inner), end)
  {
    RunOne(w, begin);
    RunConcat(w, [begin], inner);
    RunSnoc(w, [begin] + inner, end);
  }

  /** The state after a value with this text has been written. */
  function After(w: State, text: string): State {
    BeforeValue(w).(text := BeforeValue(w).text + text)
  }

  lemma WriteArray(w: State, items: seq<Value>)
    requires w.error == Fine && BeforeValue(w).error == Fine && |w.levels| < MAX_DEPTH
    ensures Step(WithItems(Step(w, BeginArray), items), EndArray) == After(w, Render(Array(items)))
  {
    hide RenderItems;
    var b := BeforeValue(w);
    var inner := WithItems(Step(w, BeginArray), items);
    assert inner.levels[..|w.levels|] == b.levels;
    assert b.text + "[" + RenderItems(items, true) + "]" == b.text + ("[" + RenderItems(items, true) + "]");
  }

  lemma WriteObject(w: State, members: seq<Member>)
    requires w.error == Fine && BeforeValue(w).error == Fine && |w.levels| < MAX_DEPTH
    ensures Step(WithMembers(Step(w, BeginObject), members), EndObject) == After(w, Render(Object(members)))
  {
    hide RenderMembers;
    var b := BeforeValue(w);
    var inner := WithMembers(Step(w, BeginObject), members);
    assert inner.levels[..|w.levels|] == b.levels;
    assert b.text + "{" + RenderMembers(members, true) + "}" == b.text + ("{" + RenderMembers(members, true) + "}");
  }

  /** Opening a container before which a value may be written. */
  lemma Opens(w: State, begin: Call)
    requires w.error == Fine && BeforeValue(w).error == Fine && (begin == BeginArray || begin == BeginObject)
    ensures var open := Step(w, begin);
            if |w.levels| < MAX_DEPTH then
              && open.error == Fine && |open.levels| == |w.levels| + 1
              && open.levels[|w.levels|] == if begin == BeginArray then ArrayLevel(false) else ObjectLevel(false, true)
            else Overflowed(open)
  {
  }

  lemma StaysOverflowed(w: State, inner: seq<Call>, end: Call)
    ensures Overflowed(w) ==> Overflowed(Run(w, inner)) && Overflowed(Step(w, end))
  {
    if Overflowed(w) {
      ErrorIsSticky(w, inner);
    }
  }

  lemma {:induction false} WriteArrayValue(w: State, items: seq<Value>)
    requires w.error == Fine && BeforeValue(w).error == Fine
    ensures Nests(Array(items), |w.levels|) ==> Run(w, Calls(Array(items))) == After(w, Render(Array(items)))
    ensures !Nests(Array(items), |w.levels|) ==> Overflowed(Run(w, Calls(Array(items))))
    decreases items, 1
  {
    hide Render, WithItems, After, Run, Step, BeforeValue, ItemCalls, Overflowed;
    var open := Step(w, BeginArray);
    Opens(w, BeginArray);
    RunShell(w, BeginArray, ItemCalls(items), EndArray);
    StaysOverflowed(open, ItemCalls(items), EndArray);
    StaysOverflowed(Run(open, ItemCalls(items)), [], EndArray);
    if |w.levels| < MAX_DEPTH {
      WriteItems(open, items);
      WriteArray(w, items);
    }
  }

  lemma {:induction false} WriteObjectValue(w: State, members: seq<Member>)
    requires w.error == Fine && BeforeValue(w).error == Fine
    ensures Nests(Object(members), |w.levels|) ==> Run(w, Calls(Object(members))) == After(w, Render(Object(members)))
    ensures !Nests(Object(members), |w.levels|) ==> Overflowed(Run(w, Calls(Object(members))))
    decreases members, 1
  {
    hide Render, WithMembers, After, Run, Step, BeforeValue, MemberCalls, Overflowed;
    var open := Step(w, BeginObject);
    Opens(w, BeginObject);
    RunShell(w, BeginObject, MemberCalls(members), EndObject);
    StaysOverflowed(open, MemberCalls(members), EndObject);
    StaysOverflowed(Run(open, MemberCalls(members)), [], EndObject);
    if |w.levels| < MAX_DEPTH {
      WriteMembers(open, members);
      WriteObject(w, members);
    }
  }

  lemma {:induction false} WriteValue(w: State, v: Value)
    requires w.error == Fine && BeforeValue(w).error == Fine
    ensures Nests(v, |w.levels|) ==> Run(w, Calls(v)) == After(w, Render(v))
    ensures !Nests(v, |w.levels|) ==> Overflowed(Run(w, Calls(v)))
    decreases v, 2
  {
    match v
    case Array(items) => WriteArrayValue(w, items);
    case Object(members) => WriteObjectValue(w, members);
    case _ => RunOne(w, Calls(v)[0]);
  }

  function WithItems(w: State, items: seq<Value>): State
    requires w.levels != []
  {
    var needComma := w.levels[|w.levels| - 1].needComma;
    WithTop(w.(text := w.text + RenderItems(items, !needComma)), ArrayLevel(needComma || items != []))
  }

  function WithMembers(w: State, members: seq<Member>): State
    requires w.levels != []
  {
    var needComma := w.levels[|w.levels| - 1].needComma;
    WithTop(w.(text := w.text + RenderMembers(members, !needComma)), ObjectLevel(needComma || members != [], true))
  }

  lemma WithItemsCons(w: State, items: seq<Value>)
    requires w.error == Fine && w.levels != [] && w.levels[|w.levels| - 1].ArrayLevel? && items != []
    ensures WithItems(After(w, Render(items[0])), items[1..]) == WithItems(w, items)
  {
    hide Render;
    var needComma := w.levels[|w.levels| - 1].needComma;
    assert w.text + Comma(!needComma) + Render(items[0]) + RenderItems(items[1..], false)
        == w.text + RenderItems(items, !needComma);
  }

  lemma {:induction false} WriteItems(w: State, items: seq<Value>)
    requires w.error == Fine && w.levels != [] && w.levels[|w.levels| - 1].ArrayLevel?
    ensures if forall i | 0 <= i < |items| :: Nests(items[i], |w.levels|)
            then Run(w, ItemCalls(items)) == WithItems(w, items)
            else Overflowed(Run(w, ItemCalls(items)))
    decreases items, 0
  {
    if items == [] {
      assert w.text + "" == w.text;
      assert w.levels[|w.levels| - 1 := w.levels[|w.levels| - 1]] == w.levels;
    } else {
      WriteValue(w, items[0]);
      RunConcat(w, Calls(items[0]), ItemCalls(items[1..]));
      var w' := Run(w, Calls(items[0]));
      if Nests(items[0], |w.levels|) {
        WriteItems(w', items[1..]);
        WithItemsCons(w, items);
        assert forall i | 0 <= i < |items[1..]| :: items[1..][i] == items[i + 1];
      } else {
        ErrorIsSticky(w', ItemCalls(items[1..]));
      }
    }
  }

  lemma WithMembersCons(w: State, members: seq<Member>)
    requires w.error == Fine && w.levels != [] && w.levels[|w.levels| - 1].ObjectLevel?
    requires w.levels[|w.levels| - 1].wantKey && members != []
    ensures WithMembers(After(Step(w, Key(members[0].key)), Render(members[0].value)), members[1..])
         == WithMembers(w, members)
  {
    hide Render, Quote;
    var needComma := w.levels[|w.levels| - 1].needComma;
    var rest := RenderMembers(members[1..], false);
    var key, value := Quote(members[0].key), Render(members[0].value);
    assert (w.text + Comma(!needComma) + key + ":") + value + rest
        == w.text + (Comma(!needComma) + (key + ":" + value) + rest);
    var n := |w.levels| - 1;
    var placed := After(Step(w, Key(members[0].key)), value);
    assert placed.levels == w.levels[n := ObjectLevel(true, true)];
    assert placed.text == (w.text + Comma(!needComma) + key + ":") + value;
    assert RenderMembers(members, !needComma) == Comma(!needComma) + (key + ":" + value) + rest;
    assert WithMembers(placed, members[1..]).levels == WithMembers(w, members).levels;
  }

  lemma NoMembersWritten(w: State)
    requires w.levels != [] && w.levels[|w.levels| - 1].ObjectLevel? && w.levels[|w.levels| - 1].wantKey
    ensures WithMembers(w, []) == w
  {
    assert w.text + "" == w.text;
    assert w.levels[|w.levels| - 1 := w.levels[|w.levels| - 1]] == w.levels;
  }

  /** The state between a key and its value. */
  lemma Keyed(w: State, m: Member)
    requires w.error == Fine && w.levels != [] && w.levels[|w.levels| - 1].ObjectLevel?
    requires w.levels[|w.levels| - 1].wantKey
    ensures var keyed := Step(w, Key(m.key));
            && keyed.error == Fine && BeforeValue(keyed).error == Fine && |keyed.levels| == |w.levels|
            && var placed := After(keyed, Render(m.value));
               placed.error == Fine && |placed.levels| == |w.levels|
               && placed.levels[|w.levels| - 1] == ObjectLevel(true, true)
  {
    hide Render, Quote;
  }

  lemma MembersFirst(w: State, members: seq<Member>)
    requires members != []
    ensures Run(w, MemberCalls(members))
         == Run(Run(Step(w, Key(members[0].key)), Calls(members[0].value)), MemberCalls(members[1..]))
  {
    hide Step, Run, Calls;
    var m := members[0];
    RunOne(w, Key(m.key));
    RunConcat(w, [Key(m.key)], Calls(m.value));
    RunConcat(w, [Key(m.key)] + Calls(m.value), MemberCalls(members[1..]));
  }

  lemma {:induction false} WriteMembers(w: State, members: seq<Member>)
    requires w.error == Fine && w.levels != [] && w.levels[|w.levels| - 1].ObjectLevel?
    requires w.levels[|w.levels| - 1].wantKey
    ensures if forall i | 0 <= i < |members| :: Nests(members[i].value, |w.levels|)
            then Run(w, MemberCalls(members)) == WithMembers(w, members)
            else Overflowed(Run(w, MemberCalls(members)))
    decreases members, 0
  {
    hide Render, Step, After, BeforeValue, WithMembers, Calls, Nests;
    if members == [] {
      NoMembersWritten(w);
    } else {
      hide Run, MemberCalls;
      var m := members[0];
      var keyed := Step(w, Key(m.key));
      Keyed(w, m);
      MembersFirst(w, members);
      WriteValue(keyed, m.value);
      var w' := Run(keyed, Calls(m.value));
      StaysOverflowed(w', MemberCalls(members[1..]), EndObject);
      if Nests(m.value, |w.levels|) {
        WriteMembers(w', members[1..]);
        WithMembersCons(w, members);
        assert forall i | 0 <= i < |members[1..]| :: members[1..][i] == members[i + 1];
      }
    }
  }

  lemma RenderNonEmpty(v: Value)
    ensures Render(v) != ""
  {
  }

  /** The calls that describe a tree within the writer's limit finish with its text. */
  lemma TreeFinishes(v: Value)
    requires Nests(v, 0)
    ensures Finish(Run(INITIAL, Calls(v))) == Success(Render(v))
  {
    hide Calls, Render, Run;
    WriteValue(INITIAL, v);
    RenderNonEmpty(v);
    assert "" + Render(v) == Render(v);
  }

  /**
    Every disciplined, complete call sequence finishes with the text of the tree it describes,
    unless a container is opened inside 32 others; then the writer reports that.
   */
  lemma DisciplinedFinish(calls: seq<Call>, v: Value)
    requires DescribeAll(EMPTY, calls) == Some(Doc(Bottom, Some(v))) && Whole(v)
    ensures Finish(Run(INITIAL, calls))
         == if Nests(v, 0) then Success(Render(v)) else Failure(Unsupported)
  {
    DisciplinedIffDescription(calls, v);
    WriteValue(INITIAL, v);
    RenderNonEmpty(v);
    assert "" + Render(v) == Render(v);
  }
}
