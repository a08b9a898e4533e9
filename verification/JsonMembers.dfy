/** Building a JSON object member by member with the writer, as every caller of src/core/json.c does. */
module JsonMembers {
  import opened CText
  import opened JsonSyntax
  import W = JsonWriter

  function Text(key: cstring, value: cstring): Member {
    Member(key, String(value))
  }

  function Count(key: cstring, value: int): Member {
    Member(key, Number(value as real))
  }

  function Flag(key: cstring, value: bool): Member {
    Member(key, Bool(value))
  }

  /** One more member of the open object whose members so far are `ms`. */
  lemma OneMore(before: seq<Call>, base: seq<Call>, ms: seq<Member>, m: Member)
    requires before == base + MemberCalls(ms)
    ensures before + MemberCalls([m]) == base + MemberCalls(ms + [m])
    ensures before + [Key(m.key)] + Calls(m.value) == base + MemberCalls(ms + [m])
  {
    hide Calls;
    MemberCallsConcat(ms, [m]);
    assert MemberCalls([m]) == [Key(m.key)] + Calls(m.value) by {
      assert [m][1..] == [];
    }
    assert before + [Key(m.key)] + Calls(m.value) == before + ([Key(m.key)] + Calls(m.value));
  }

  method PutText(w: W.Writer, key: cstring, value: cstring, ghost base: seq<Call>, ghost ms: seq<Member>)
    returns (ghost ms': seq<Member>)
    requires w.Valid() && w.calls == base + MemberCalls(ms)
    modifies w.Repr()
    ensures w.Valid() && ms' == ms + [Text(key, value)] && w.calls == base + MemberCalls(ms')
  {
    OneMore(w.calls, base, ms, Text(key, value));
    w.MemberString(key, value);
    ms' := ms + [Text(key, value)];
  }

  method PutCount(w: W.Writer, key: cstring, value: int, ghost base: seq<Call>, ghost ms: seq<Member>)
    returns (ghost ms': seq<Member>)
    requires w.Valid() && w.calls == base + MemberCalls(ms)
    modifies w.Repr()
    ensures w.Valid() && ms' == ms + [Count(key, value)] && w.calls == base + MemberCalls(ms')
  {
    OneMore(w.calls, base, ms, Count(key, value));
    w.MemberInt(key, value);
    ms' := ms + [Count(key, value)];
  }

  method PutFlag(w: W.Writer, key: cstring, value: bool, ghost base: seq<Call>, ghost ms: seq<Member>)
    returns (ghost ms': seq<Member>)
    requires w.Valid() && w.calls == base + MemberCalls(ms)
    modifies w.Repr()
    ensures w.Valid() && ms' == ms + [Flag(key, value)] && w.calls == base + MemberCalls(ms')
  {
    OneMore(w.calls, base, ms, Flag(key, value));
    w.MemberBool(key, value);
    ms' := ms + [Flag(key, value)];
  }

  lemma ObjectCalls(before: seq<Call>, ms: seq<Member>)
    ensures before + [BeginObject] + MemberCalls(ms) + [EndObject] == before + Calls(Object(ms))
  {
    hide MemberCalls;
    assert before + [BeginObject] + MemberCalls(ms) + [EndObject]
        == before + ([BeginObject] + MemberCalls(ms) + [EndObject]);
  }

  lemma ArrayCalls(before: seq<Call>, items: seq<Value>)
    ensures before + [BeginArray] + ItemCalls(items) + [EndArray] == before + Calls(Array(items))
  {
    hide ItemCalls;
    assert before + [BeginArray] + ItemCalls(items) + [EndArray]
        == before + ([BeginArray] + ItemCalls(items) + [EndArray]);
  }

  lemma OneMoreItem(before: seq<Call>, base: seq<Call>, items: seq<Value>, i: nat)
    requires i < |items| && before == base + ItemCalls(items[..i])
    ensures before + Calls(items[i]) == base + ItemCalls(items[..i + 1])
  {
    hide Calls;
    ItemCallsConcat(items[..i], [items[i]]);
    assert items[..i + 1] == items[..i] + [items[i]];
    assert ItemCalls([items[i]]) == Calls(items[i]) by {
      assert [items[i]][1..] == [];
    }
  }

  lemma NoMembers(base: seq<Call>)
    ensures base == base + MemberCalls([])
  {
  }
}
