/** The loaded signature list: sorted by size, searched by bisection (src/detectors/signature_list.c). */
module SignatureList {
  import opened CText
  import opened Signatures

  ghost predicate SortedBySize(entries: seq<Signature>) {
    forall i, j | 0 <= i < j < |entries| :: entries[i].size <= entries[j].size
  }

  predicate Matches(e: Signature, size: nat, hash: string) {
    e.size == size && e.hash == hash
  }

  /** Some entry has both, whatever the order of the entries. */
  predicate Listed(entries: seq<Signature>, size: nat, hash: string) {
    exists e | e in entries :: Matches(e, size, hash)
  }

  predicate SizeListed(entries: seq<Signature>, size: nat) {
    exists e | e in entries :: e.size == size
  }

  /** The entry goes before the first larger one. */
  method Insert(entries: seq<Signature>, e: Signature) returns (r: seq<Signature>)
    requires SortedBySize(entries)
    ensures SortedBySize(r) && multiset(r) == multiset(entries) + multiset{e}
  {
    var i := |entries|;
    while i > 0 && entries[i - 1].size > e.size
      invariant 0 <= i <= |entries|
      invariant forall k | i <= k < |entries| :: entries[k].size > e.size
    {
      i := i - 1;
    }
    InsertSorts(entries, e, i);
    r := entries[..i] + [e] + entries[i..];
  }

  lemma InsertSorts(entries: seq<Signature>, e: Signature, i: nat)
    requires SortedBySize(entries) && i <= |entries|
    requires forall k | i <= k < |entries| :: entries[k].size > e.size
    requires i > 0 ==> entries[i - 1].size <= e.size
    ensures var r := entries[..i] + [e] + entries[i..];
            SortedBySize(r) && multiset(r) == multiset(entries) + multiset{e}
  {
    hide SortedBySize;
    InsertKeepsOrder(entries, e, i, entries[..i] + [e] + entries[i..]);
    InsertKeepsEntries(entries, e, i);
  }

  lemma InsertKeepsEntries(entries: seq<Signature>, e: Signature, i: nat)
    requires i <= |entries|
    ensures multiset(entries[..i] + [e] + entries[i..]) == multiset(entries) + multiset{e}
  {
    var a, b := entries[..i], entries[i..];
    assert entries == a + b;
    assert multiset(a + [e] + b) == multiset(a + [e]) + multiset(b);
  }

  lemma InsertKeepsOrder(entries: seq<Signature>, e: Signature, i: nat, r: seq<Signature>)
    requires SortedBySize(entries) && i <= |entries|
    requires forall k | i <= k < |entries| :: entries[k].size > e.size
    requires i > 0 ==> entries[i - 1].size <= e.size
    requires r == entries[..i] + [e] + entries[i..]
    ensures SortedBySize(r)
  {
    forall a, b | 0 <= a < b < |r| ensures r[a].size <= r[b].size {
      InsertedAt(entries, e, i, a);
      InsertedAt(entries, e, i, b);
    }
  }

  lemma InsertedAt(entries: seq<Signature>, e: Signature, i: nat, k: nat)
    requires i <= |entries| && k <= |entries|
    ensures (entries[..i] + [e] + entries[i..])[k] == if k < i then entries[k] else if k == i then e else entries[k - 1]
  {
  }

  /** What qsort is asked for: the same entries, in order of size. */
  method Sort(entries: seq<Signature>) returns (r: seq<Signature>)
    ensures SortedBySize(r) && multiset(r) == multiset(entries)
  {
    r := [];
    for i := 0 to |entries|
      invariant SortedBySize(r) && multiset(r) == multiset(entries[..i])
    {
      assert entries[..i + 1] == entries[..i] + [entries[i]];
      r := Insert(r, entries[i]);
    }
    assert entries[..|entries|] == entries;
  }

  lemma SameListed(a: seq<Signature>, b: seq<Signature>)
    requires multiset(a) == multiset(b)
    ensures forall size: nat, hash: string :: Listed(a, size, hash) == Listed(b, size, hash)
    ensures forall size: nat :: SizeListed(a, size) == SizeListed(b, size)
  {
    forall e ensures e in a <==> e in b {
      assert e in a <==> e in multiset(a);
      assert e in b <==> e in multiset(b);
    }
  }

  class List {
    var entries: seq<Signature>

    constructor ()
      ensures entries == []
    {
      entries := [];
    }

    /** The line loop and the sort of usbs_signature_list_load. */
    method Load(text: string) returns (malformed: nat)
      modifies this
      ensures SortedBySize(entries)
      ensures multiset(entries) == multiset(old(entries) + EntriesOf(Lines(text)))
      ensures malformed == MalformedCount(Lines(text))
    {
      hide ParseLine, IndexOf, Lines, EntriesOf, MalformedCount;
      NothingToLoad();
      malformed := 0;
      var start := 0;
      ghost var done: seq<string> := [];
      assert text[0..] == text;
      while start < |text|
        invariant 0 <= start <= |text|
        invariant Lines(text) == done + Lines(text[start..])
        invariant entries == old(entries) + EntriesOf(done) && malformed == MalformedCount(done)
        decreases |text| - start
      {
        var end := MemChr(text, start, '\n');
        var line := text[start..end];
        NextLine(text, start, end);
        OneLineMore(done, line);
        done := done + [line];
        var r := Parse(line);
        match r {
          case Entry(e) => entries := entries + [e];
          case Malformed => malformed := malformed + 1;
          case Quiet =>
        }
        start := if end < |text| then end + 1 else |text|;
      }
      assert text[start..] == "";
      assert done == Lines(text);
      if |entries| > 0 {
        entries := Sort(entries);
      }
    }

    /** lower_bound_by_size. */
    method LowerBound(size: nat) returns (lo: nat)
      requires SortedBySize(entries)
      ensures lo <= |entries|
      ensures forall i | 0 <= i < lo :: entries[i].size < size
      ensures forall i | lo <= i < |entries| :: entries[i].size >= size
    {
      lo := 0;
      var hi := |entries|;
      while lo < hi
        invariant lo <= hi <= |entries|
        invariant forall i | 0 <= i < lo :: entries[i].size < size
        invariant forall i | hi <= i < |entries| :: entries[i].size >= size
      {
        var mid := lo + (hi - lo) / 2;
        if entries[mid].size < size {
          lo := mid + 1;
        } else {
          hi := mid;
        }
      }
    }

    /** usbs_signature_list_lookup: bisection and a short scan find what a search of the whole list would. */
    method Lookup(size: nat, hash: string) returns (name: Option<cstring>)
      requires SortedBySize(entries)
      ensures name.Some? <==> Listed(entries, size, hash)
      ensures name.Some? ==> exists e | e in entries :: Matches(e, size, hash) && e.name == name.value
    {
      if |entries| == 0 {
        return None;
      }
      var lo := LowerBound(size);
      var i := lo;
      while i < |entries| && entries[i].size == size
        invariant lo <= i <= |entries|
        invariant forall k | 0 <= k < i :: !Matches(entries[k], size, hash)
      {
        if entries[i].hash == hash {
          assert Matches(entries[i], size, hash);
          return Some(entries[i].name);
        }
        i := i + 1;
      }
      forall e | e in entries ensures !Matches(e, size, hash) {
        var k :| 0 <= k < |entries| && entries[k] == e;
        assert k >= i ==> entries[k].size >= entries[i].size;
      }
      return None;
    }

    /** usbs_signature_list_has_size. */
    method HasSize(size: nat) returns (r: bool)
      requires SortedBySize(entries)
      ensures r == SizeListed(entries, size)
    {
      if |entries| == 0 {
        return false;
      }
      var lo := LowerBound(size);
      return lo < |entries| && entries[lo].size == size;
    }
  }

  lemma NothingToLoad()
    ensures Lines("") == [] && EntriesOf([]) == [] && MalformedCount([]) == 0
  {
  }

  lemma OneLineMore(lines: seq<string>, line: string)
    ensures var r := ParseLine(line);
            && EntriesOf(lines + [line]) == EntriesOf(lines) + (if r.Entry? then [r.entry] else [])
            && MalformedCount(lines + [line]) == MalformedCount(lines) + if r.Malformed? then 1 else 0
  {
    hide ParseLine;
    assert (lines + [line])[..|lines|] == lines;
  }

  lemma NextLine(text: string, start: nat, end: nat)
    requires start < |text| && end >= start && end - start == IndexOf(text[start..], '\n')
    ensures end <= |text|
    ensures Lines(text[start..])
         == [text[start..end]] + Lines(text[if end < |text| then end + 1 else |text|..])
  {
    hide IndexOf, Lines;
    var rest := text[start..];
    FirstLine(rest);
    NothingToLoad();
    assert rest[..end - start] == text[start..end];
    if end < |text| {
      assert rest[end - start + 1..] == text[end + 1..];
    } else {
      assert text[|text|..] == "";
    }
  }

  lemma FirstLine(text: string)
    requires text != ""
    ensures var end := IndexOf(text, '\n');
            Lines(text) == [text[..end]] + (if end == |text| then [] else Lines(text[end + 1..]))
  {
    hide IndexOf;
  }
}
