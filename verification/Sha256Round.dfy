/** The word arithmetic of SHA-256 (src/platform/sha256.c): sections 4.1.2 and 6.2.2 of FIPS 180-4. */
module Sha256Round {
  type word = bv32

  /** Addition modulo 2^32. */
  function Add(x: word, y: word): word {
    x + y
  }

  function Ch(x: word, y: word, z: word): word {
    (x & y) ^ (!x & z)
  }

  function Maj(x: word, y: word, z: word): word {
    (x & y) ^ (x & z) ^ (y & z)
  }

  function BigSigma0(x: word): word {
    x.RotateRight(2) ^ x.RotateRight(13) ^ x.RotateRight(22)
  }

  function BigSigma1(x: word): word {
    x.RotateRight(6) ^ x.RotateRight(11) ^ x.RotateRight(25)
  }

  function SmallSigma0(x: word): word {
    x.RotateRight(7) ^ x.RotateRight(18) ^ (x >> 3)
  }

  function SmallSigma1(x: word): word {
    x.RotateRight(17) ^ x.RotateRight(19) ^ (x >> 10)
  }

  /** Step 1 of section 6.2.2 for t >= 16, the addends in the order the code adds them. */
  function Scheduled(w2: word, w7: word, w15: word, w16: word): word {
    Add(Add(Add(w16, SmallSigma0(w15)), w7), SmallSigma1(w2))
  }

  datatype Vars = Vars(a: word, b: word, c: word, d: word, e: word, f: word, g: word, h: word)

  function T1(v: Vars, k: word, w: word): word {
    Add(Add(Add(Add(v.h, BigSigma1(v.e)), Ch(v.e, v.f, v.g)), k), w)
  }

  function T2(v: Vars): word {
    Add(BigSigma0(v.a), Maj(v.a, v.b, v.c))
  }

  /** One pass of step 3 of section 6.2.2. */
  function Round(v: Vars, k: word, w: word): Vars {
    Vars(Add(T1(v, k, w), T2(v)), v.a, v.b, v.c, Add(v.d, T1(v, k, w)), v.e, v.f, v.g)
  }

  /** Step 4 of section 6.2.2. */
  function AddVars(state: seq<word>, v: Vars): (next: seq<word>)
    requires |state| == 8
    ensures |next| == 8
  {
    [Add(state[0], v.a), Add(state[1], v.b), Add(state[2], v.c), Add(state[3], v.d),
     Add(state[4], v.e), Add(state[5], v.f), Add(state[6], v.g), Add(state[7], v.h)]
  }

  // ---- the code: rotr32 is a shift each way ----

  method ShiftBigSigma0(x: word) returns (r: word)
    ensures r == BigSigma0(x)
  {
    r := ((x >> 2) | (x << 30)) ^ ((x >> 13) | (x << 19)) ^ ((x >> 22) | (x << 10));
  }

  method ShiftBigSigma1(x: word) returns (r: word)
    ensures r == BigSigma1(x)
  {
    r := ((x >> 6) | (x << 26)) ^ ((x >> 11) | (x << 21)) ^ ((x >> 25) | (x << 7));
  }

  method ShiftSmallSigma0(x: word) returns (r: word)
    ensures r == SmallSigma0(x)
  {
    r := ((x >> 7) | (x << 25)) ^ ((x >> 18) | (x << 14)) ^ (x >> 3);
  }

  method ShiftSmallSigma1(x: word) returns (r: word)
    ensures r == SmallSigma1(x)
  {
    r := ((x >> 17) | (x << 15)) ^ ((x >> 19) | (x << 13)) ^ (x >> 10);
  }

  method ScheduleWord(w16: word, w15: word, w7: word, w2: word) returns (w: word)
    ensures w == Scheduled(w2, w7, w15, w16)
  {
    hide Add, SmallSigma0, SmallSigma1;
    var s0 := ShiftSmallSigma0(w15);
    var s1 := ShiftSmallSigma1(w2);
    w := Add(Add(Add(w16, s0), w7), s1);
  }

  method Temp1(v: Vars, k: word, w: word) returns (t: word)
    ensures t == T1(v, k, w)
  {
    hide Add, BigSigma1, Ch;
    var s1 := ShiftBigSigma1(v.e);
    var ch := Ch(v.e, v.f, v.g);
    t := Add(Add(Add(Add(v.h, s1), ch), k), w);
  }

  method Temp2(v: Vars) returns (t: word)
    ensures t == T2(v)
  {
    hide Add, BigSigma0, Maj;
    var s0 := ShiftBigSigma0(v.a);
    var maj := Maj(v.a, v.b, v.c);
    t := Add(s0, maj);
  }

  method OneRound(v: Vars, k: word, w: word) returns (next: Vars)
    ensures next == Round(v, k, w)
  {
    hide Add, T1, T2;
    var temp1 := Temp1(v, k, w);
    var temp2 := Temp2(v);
    var Vars(a, b, c, d, e, f, g, h) := v;
    h := g;
    g := f;
    f := e;
    e := Add(d, temp1);
    d := c;
    c := b;
    b := a;
    a := Add(temp1, temp2);
    next := Vars(a, b, c, d, e, f, g, h);
  }

  lemma AddVarsAt(state: seq<word>, v: Vars)
    requires |state| == 8
    ensures var next := AddVars(state, v);
            && next[0] == Add(state[0], v.a) && next[1] == Add(state[1], v.b)
            && next[2] == Add(state[2], v.c) && next[3] == Add(state[3], v.d)
            && next[4] == Add(state[4], v.e) && next[5] == Add(state[5], v.f)
            && next[6] == Add(state[6], v.g) && next[7] == Add(state[7], v.h)
  {
    hide Add;
  }

  method AddInto(state: array<word>, v: Vars)
    requires state.Length == 8
    modifies state
    ensures state[..] == AddVars(old(state[..]), v)
  {
    hide Add, AddVars;
    AddVarsAt(state[..], v);
    ghost var next := AddVars(state[..], v);
    state[0], state[1] := Add(state[0], v.a), Add(state[1], v.b);
    state[2], state[3] := Add(state[2], v.c), Add(state[3], v.d);
    state[4], state[5] := Add(state[4], v.e), Add(state[5], v.f);
    state[6], state[7] := Add(state[6], v.g), Add(state[7], v.h);
    SameEight(state[..], next);
  }

  lemma SameEight(a: seq<word>, b: seq<word>)
    requires |a| == 8 && |b| == 8
    requires a[0] == b[0] && a[1] == b[1] && a[2] == b[2] && a[3] == b[3]
    requires a[4] == b[4] && a[5] == b[5] && a[6] == b[6] && a[7] == b[7]
    ensures a == b
  {
  }
}
