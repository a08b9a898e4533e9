/**
  What the writer of src/core/json.c does not notice.  Its own checks leave two misuses through: a key
  without a value and a second value after the root.  There is no third.
 */
module JsonMisuse {
  import opened CText
  import opened JsonSyntax
  import opened JsonWriter
  import opened JsonDocument
  import Decimal

  /** A key directly before the end of its object. */
  predicate HasDanglingKey(calls: seq<Call>) {
    exists i | 0 <= i < |calls| - 1 :: calls[i].Key? && calls[i + 1].EndObject?
  }

  predicate Begins(call: Call) {
    call.BeginObject? || call.BeginArray?
  }

  predicate Ends(call: Call) {
    call.EndObject? || call.EndArray?
  }

  /** How many containers are open after the call. */
  function Deeper(call: Call, depth: int): int {
    if Begins(call) then depth + 1 else if Ends(call) then depth - 1 else depth
  }

  /** How many values are begun outside all containers. */
  function Roots(calls: seq<Call>, depth: int): nat {
    if calls == [] then 0
    else
      (if depth == 0 && !Ends(calls[0]) && !calls[0].Key? then 1 else 0) + Roots(calls[1..], Deeper(calls[0], depth))
  }

  // ---- the writer's levels beside the described frames ----

  function Height(frames: Frames): nat {
    match frames
    case Bottom => 0
    case On(below, _) => Height(below) + 1
  }

  /** A level and a frame for the same container; of the outer ones, every key has its value begun. */
  predicate SameLevel(level: Level, frame: Frame, outer: bool) {
    match level
    case ArrayLevel(_) => frame.ArrayFrame?
    case ObjectLevel(_, wantKey) => frame.ObjectFrame? && (wantKey <==> outer || frame.pending.None?)
  }

  predicate Matches(levels: seq<Level>, frames: Frames, outer: bool)
    decreases frames
  {
    match frames
    case Bottom => levels == []
    case On(below, top) =>
      && levels != [] && SameLevel(levels[|levels| - 1], top, outer)
      && (outer && top.ObjectFrame? ==> top.pending.Some?)
      && Matches(levels[..|levels| - 1], below, true)
  }

  ghost predicate Simulates(w: State, d: Doc) {
    w.error == Fine && Matches(w.levels, d.frames, false) && (d.root.Some? ==> d.frames.Bottom?)
  }

  predicate Pending(d: Doc) {
    d.frames.On? && d.frames.top.ObjectFrame? && d.frames.top.pending.Some?
  }

  /** Whether the root has been begun. */
  function Begun(d: Doc): nat {
    if d.root.Some? || d.frames.On? then 1 else 0
  }

  /** Before a value, the writer's own bookkeeping treats the container as one around that value. */
  lemma BeforeMatches(w: State, d: Doc)
    requires Simulates(w, d) && d.root.None? && BeforeValue(w).error == Fine
    ensures CanPlace(d) && Matches(BeforeValue(w).levels, d.frames, true)
  {
    if d.frames.On? {
      var rest := w.levels[..|w.levels| - 1];
      assert BeforeValue(w).levels[..|w.levels| - 1] == rest;
    }
  }

  /** The container around a value, once the value is placed. */
  lemma PlaceMatches(levels: seq<Level>, d: Doc, v: Value)
    requires CanPlace(d) && Matches(levels, d.frames, true)
    ensures Matches(levels, Place(d, v).frames, false)
  {
  }

  lemma OpenMatches(levels: seq<Level>, frames: Frames, level: Level, frame: Frame)
    requires Matches(levels, frames, true) && SameLevel(level, frame, false)
    ensures Matches(levels + [level], On(frames, frame), false)
  {
    assert (levels + [level])[..|levels|] == levels;
  }

  lemma CloseMatches(levels: seq<Level>, frames: Frames)
    requires Matches(levels, frames, false) && frames.On?
    ensures levels != [] && Matches(levels[..|levels| - 1], frames.below, true)
    ensures levels[|levels| - 1].ObjectLevel? == frames.top.ObjectFrame?
  {
  }

  lemma AroundCanPlace(levels: seq<Level>, d: Doc)
    requires Matches(levels, d.frames, true) && d.root.None?
    ensures CanPlace(d)
  {
  }

  lemma ScalarSimulates(w: State, d: Doc, text: string, v: Value)
    requires Simulates(w, d) && Scalar(w, text).error == Fine && d.root.None?
    ensures CanPlace(d) && Simulates(Scalar(w, text), Place(d, v))
  {
    hide Matches, BeforeValue;
    BeforeMatches(w, d);
    PlaceMatches(BeforeValue(w).levels, d, v);
  }

  lemma OpenSimulates(w: State, d: Doc, bracket: string, level: Level, frame: Frame)
    requires Simulates(w, d) && Open(w, bracket, level).error == Fine && d.root.None?
    requires SameLevel(level, frame, false)
    ensures CanPlace(d) && Simulates(Open(w, bracket, level), Opened(d, frame))
  {
    hide Matches, BeforeValue, SameLevel;
    BeforeMatches(w, d);
    OpenMatches(BeforeValue(w).levels, d.frames, level, frame);
  }

  lemma CloseSimulates(w: State, d: Doc, bracket: string, isObject: bool, v: Value)
    requires Simulates(w, d) && Close(w, bracket, isObject).error == Fine
    ensures d.frames.On? && d.frames.top.ObjectFrame? == isObject
    ensures CanPlace(d.(frames := d.frames.below))
    ensures Simulates(Close(w, bracket, isObject), Place(d.(frames := d.frames.below), v))
  {
    hide Matches;
    AtBottom(w.levels, d.frames);
    CloseMatches(w.levels, d.frames);
    var rest := w.levels[..|w.levels| - 1];
    AroundCanPlace(rest, d.(frames := d.frames.below));
    PlaceMatches(rest, d.(frames := d.frames.below), v);
  }

  lemma AtBottom(levels: seq<Level>, frames: Frames)
    requires Matches(levels, frames, false)
    ensures frames.Bottom? <==> levels == []
  {
  }

  /** A call the writer takes without complaint keeps the discipline, but for the two misuses. */
  lemma StepSimulates(w: State, d: Doc, call: Call)
    requires Simulates(w, d) && Step(w, call).error == Fine
    requires !(Pending(d) && call.EndObject?)
    requires !(d.root.Some? && !Ends(call) && !call.Key?)
    ensures Describe(d, call).Some? && Simulates(Step(w, call), Describe(d, call).value)
  {
    match call
    case BeginObject => OpenSimulates(w, d, "{", ObjectLevel(false, true), ObjectFrame([], None));
    case BeginArray => OpenSimulates(w, d, "[", ArrayLevel(false), ArrayFrame([]));
    case EndObject =>
      CloseSimulates(w, d, "}", true, Object(if d.frames.On? && d.frames.top.ObjectFrame? then d.frames.top.members else []));
    case EndArray =>
      CloseSimulates(w, d, "]", false, Array(if d.frames.On? && d.frames.top.ArrayFrame? then d.frames.top.items else []));
    case Key(k) =>
    case Str(s) => ScalarSimulates(w, d, Quote(s), String(s));
    case Int(i) => ScalarSimulates(w, d, Decimal.IntText(i), Number(i as real));
    case Boolean(b) => ScalarSimulates(w, d, if b then "true" else "false", Bool(b));
    case Nil => ScalarSimulates(w, d, "null", Null);
  }

  // ---- a run without the misuses keeps the discipline ----

  /** The bookkeeping of one disciplined call: keys, roots and depth. */
  lemma StepCounts(d: Doc, call: Call)
    requires Describe(d, call).Some? && (d.root.Some? ==> d.frames.Bottom?)
    ensures var e := Describe(d, call).value;
            && (Pending(e) <==> call.Key?) && Height(e.frames) == Deeper(call, Height(d.frames))
            && (e.root.Some? ==> e.frames.Bottom?)
            && Begun(e) == Begun(d) + (if Height(d.frames) == 0 && !Ends(call) && !call.Key? then 1 else 0)
    ensures !(Pending(d) && call.EndObject?)
  {
  }

  lemma DanglingCons(calls: seq<Call>)
    requires calls != []
    ensures HasDanglingKey(calls)
       <==> HasDanglingKey(calls[1..]) || (|calls| > 1 && calls[0].Key? && calls[1].EndObject?)
  {
    var rest := calls[1..];
    assert forall i | 0 <= i < |rest| :: rest[i] == calls[i + 1];
    if HasDanglingKey(calls) {
      var i :| 0 <= i < |calls| - 1 && calls[i].Key? && calls[i + 1].EndObject?;
      if i > 0 {
        assert rest[i - 1].Key? && rest[i - 1 + 1].EndObject?;
      }
    }
    if HasDanglingKey(rest) {
      var i :| 0 <= i < |rest| - 1 && rest[i].Key? && rest[i + 1].EndObject?;
      assert calls[i + 1].Key? && calls[i + 1 + 1].EndObject?;
    }
  }

  /** From any described state: without the misuses, what the writer takes is disciplined to the end. */
  lemma {:induction false} RunSimulates(w: State, d: Doc, calls: seq<Call>)
    requires Simulates(w, d) && Run(w, calls).error == Fine
    requires !HasDanglingKey(calls) && !(Pending(d) && calls != [] && calls[0].EndObject?)
    requires Begun(d) + Roots(calls, Height(d.frames)) <= 1
    ensures DescribeAll(d, calls).Some? && Simulates(Run(w, calls), DescribeAll(d, calls).value)
    decreases |calls|
  {
    hide Step, Describe, Simulates, Pending, HasDanglingKey;
    if calls != [] {
      var call := calls[0];
      if Step(w, call).error != Fine {
        ErrorIsSticky(Step(w, call), calls[1..]);
      }
      StillFits(w, d, call);
      StepSimulates(w, d, call);
      StepCounts(d, call);
      DanglingCons(calls);
      RunSimulates(Step(w, call), Describe(d, call).value, calls[1..]);
    }
  }

  /** With a root begun there is no second. */
  lemma StillFits(w: State, d: Doc, call: Call)
    requires Simulates(w, d)
    ensures d.root.Some? ==> d.frames.Bottom? && Begun(d) == 1 && Height(d.frames) == 0
  {
  }

  // ---- a disciplined run has none of the misuses ----

  lemma {:induction false} DisciplinedCounts(d: Doc, calls: seq<Call>)
    requires DescribeAll(d, calls).Some? && (d.root.Some? ==> d.frames.Bottom?)
    ensures !HasDanglingKey(calls) && !(Pending(d) && calls != [] && calls[0].EndObject?)
    ensures Begun(d) + Roots(calls, Height(d.frames)) == Begun(DescribeAll(d, calls).value)
    decreases |calls|
  {
    hide Describe, Pending, HasDanglingKey, Begun, Height, Deeper;
    if calls == [] {
      NothingDangles();
    } else {
      StepCounts(d, calls[0]);
      DisciplinedCounts(Describe(d, calls[0]).value, calls[1..]);
      DanglingCons(calls);
    }
  }

  lemma NothingDangles()
    ensures !HasDanglingKey([])
  {
  }

  lemma Finished(calls: seq<Call>)
    requires Finish(Run(INITIAL, calls)).Success?
    ensures Run(INITIAL, calls).error == Fine && Run(INITIAL, calls).levels == [] && calls != []
  {
  }

  /** A disciplined run that ends outside all containers is a whole document, unless it has no calls. */
  lemma WholeDocument(calls: seq<Call>)
    requires DescribeAll(EMPTY, calls).Some? && calls != [] && DescribeAll(EMPTY, calls).value.frames.Bottom?
    ensures DescribeAll(EMPTY, calls).value.root.Some?
  {
    hide DescribeAll;
    DescribedCalls(EMPTY, calls);
    assert CallsOf(EMPTY) == [] && [] + calls == calls;
  }

  /**
    The misuses the writer misses, exactly: a call sequence that it finishes without complaint is a
    complete document if and only if no key is directly followed by the end of its object and exactly
    one value is begun outside all containers.
   */
  lemma UnnoticedMisuseIff(calls: seq<Call>)
    requires Finish(Run(INITIAL, calls)).Success?
    ensures (exists v: Value :: DescribeAll(EMPTY, calls) == Some(Doc(Bottom, Some(v))))
       <==> !HasDanglingKey(calls) && Roots(calls, 0) == 1
  {
    hide DescribeAll, Run, HasDanglingKey, Roots;
    Finished(calls);
    if !HasDanglingKey(calls) && Roots(calls, 0) == 1 {
      assert Simulates(INITIAL, EMPTY);
      RunSimulates(INITIAL, EMPTY, calls);
      var e := DescribeAll(EMPTY, calls).value;
      WholeDocument(calls);
      assert e == Doc(Bottom, Some(e.root.value));
    }
    forall v: Value | DescribeAll(EMPTY, calls) == Some(Doc(Bottom, Some(v)))
      ensures !HasDanglingKey(calls) && Roots(calls, 0) == 1
    {
      DisciplinedCounts(EMPTY, calls);
    }
  }
}
