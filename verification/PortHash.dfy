/** The cancel-callback port of a participant (`nextCancelCallbackPort` of
    src/hosting/process-example-agent-host.provider.ts). */
module PortHash {
  /** A UTF-16 code unit. */
  newtype CodeUnit = x: int | 0 <= x < 0x10000

  const COLON: CodeUnit := 58
  const TWO_32: int := 0x1_0000_0000
  /** Integers up to here are exact as JavaScript numbers. */
  const MAX_EXACT: int := 0x20_0000_0000_0000

  /** `x | 0`: the signed 32-bit number congruent to `x`. */
  function ToInt32(x: int): (r: int)
    ensures -0x8000_0000 <= r < 0x8000_0000
    ensures exists q: int :: x == r + q * TWO_32
  {
    var m, q := x % TWO_32, x / TWO_32;
    assert x == m + q * TWO_32 && x == m - TWO_32 + (q + 1) * TWO_32;
    if m < 0x8000_0000 then m else m - TWO_32
  }

  function Power(n: nat): (p: int)
    ensures p >= 1
  {
    if n == 0 then 1 else 31 * Power(n - 1)
  }

  /** The base-31 polynomial: each unit weighs 31 to the number of units after it. */
  function Polynomial(s: seq<CodeUnit>): int {
    if s == [] then 0 else s[0] as int * Power(|s| - 1) + Polynomial(s[1..])
  }

  lemma {:induction false} PolynomialAppend(s: seq<CodeUnit>, c: CodeUnit)
    ensures Polynomial(s + [c]) == Polynomial(s) * 31 + c as int
  {
    if s == [] {
      assert [c][1..] == [];
      assert Power(0) == 1;
      assert Polynomial([c]) == c as int * Power(0) + Polynomial([]);
    } else {
      PolynomialAppend(s[1..], c);
      assert (s + [c])[1..] == s[1..] + [c] && (s + [c])[0] == s[0];
      assert Power(|s|) == 31 * Power(|s| - 1);
      calc {
        Polynomial(s + [c]);
        s[0] as int * (31 * Power(|s| - 1)) + (Polynomial(s[1..]) * 31 + c as int);
        { Shuffle(s[0] as int, Power(|s| - 1)); }
        (s[0] as int * Power(|s| - 1) + Polynomial(s[1..])) * 31 + c as int;
      }
    }
  }

  lemma Shuffle(a: int, b: int)
    ensures a * (31 * b) == (a * b) * 31
  {
  }

  /** Truncating early or late makes no difference. */
  lemma TruncateInside(h: int, p: int, c: int)
    requires h == ToInt32(p)
    ensures ToInt32(h * 31 + c) == ToInt32(p * 31 + c)
  {
    var q :| p == h + q * TWO_32;
    assert p * 31 + c == (h * 31 + c) + (q * 31) * TWO_32;
    ToInt32Shift(h * 31 + c, q * 31);
  }

  lemma ToInt32Shift(x: int, q: int)
    ensures ToInt32(x + q * TWO_32) == ToInt32(x)
  {
    assert (x + q * TWO_32) % TWO_32 == x % TWO_32;
  }

  function Magnitude(h: int): nat {
    if h < 0 then -h else h
  }

  /** The port of a launch. */
  function Port(base: int, runId: seq<CodeUnit>, participantId: seq<CodeUnit>): int {
    base + Magnitude(ToInt32(Polynomial(runId + [COLON] + participantId))) % 1024
  }

  /** Exactly what the loop computes: the polynomial modulo 2^32 in signed form, with no
      intermediate outside the exact range, and a port in the 1024 from `base`, also for
      the hash -2^31 whose magnitude is no signed 32-bit number. */
  method NextCancelCallbackPort(base: int, runId: seq<CodeUnit>, participantId: seq<CodeUnit>)
    returns (port: int)
    ensures port == Port(base, runId, participantId)
    ensures base <= port <= base + 1023
  {
    var hash := 0;
    var material := runId + [COLON] + participantId;
    for i := 0 to |material|
      invariant hash == ToInt32(Polynomial(material[..i]))
    {
      var next := hash * 31 + material[i] as int;
      assert -MAX_EXACT <= hash * 31 <= MAX_EXACT && -MAX_EXACT <= next <= MAX_EXACT;
      assert material[..i + 1] == material[..i] + [material[i]];
      PolynomialAppend(material[..i], material[i]);
      TruncateInside(hash, Polynomial(material[..i]), material[i] as int);
      hash := ToInt32(next);
    }
    assert material[..|material|] == material;
    port := base + Magnitude(hash) % 1024;
  }

  /** The polynomial of a concatenation: the prefix is shifted by the suffix's length. */
  lemma {:induction false} PolynomialConcat(s: seq<CodeUnit>, t: seq<CodeUnit>)
    ensures Polynomial(s + t) == Polynomial(s) * Power(|t|) + Polynomial(t)
    decreases |t|
  {
    if t == [] {
      assert s + t == s;
    } else {
      var init, c := t[..|t| - 1], t[|t| - 1];
      assert s + t == (s + init) + [c] && t == init + [c];
      PolynomialConcat(s, init);
      PolynomialAppend(s + init, c);
      PolynomialAppend(init, c);
      calc {
        (Polynomial(s) * Power(|init|) + Polynomial(init)) * 31 + c as int;
        { Shuffle(Polynomial(s), Power(|init|)); }
        Polynomial(s) * Power(|t|) + (Polynomial(init) * 31 + c as int);
      }
    }
  }

  lemma SameAfterAdding(a: int, x: int, y: int, u: int, v: int)
    requires u == a + x && v == a + y
    ensures ToInt32(u) == ToInt32(v) <==> x % TWO_32 == y % TWO_32
  {
    assert (a + x) % TWO_32 == (a + y) % TWO_32 <==> x % TWO_32 == y % TWO_32;
  }

  /** The port is stable but not unique: within a run, equally long ids hash alike exactly
      when their own polynomials agree modulo 2^32, whatever the run. */
  lemma SameHashIff(runId: seq<CodeUnit>, p: seq<CodeUnit>, q: seq<CodeUnit>)
    requires |p| == |q|
    ensures ToInt32(Polynomial(runId + [COLON] + p)) == ToInt32(Polynomial(runId + [COLON] + q)) <==>
            Polynomial(p) % TWO_32 == Polynomial(q) % TWO_32
  {
    var prefix := runId + [COLON];
    PolynomialConcat(prefix, p);
    PolynomialConcat(prefix, q);
    SameAfterAdding(
      Polynomial(prefix) * Power(|p|), Polynomial(p), Polynomial(q),
      Polynomial(prefix + p), Polynomial(prefix + q));
  }

  /** The sign that the truncation gives the hash of `p`. */
  predicate Negative(p: int) {
    p % TWO_32 >= 0x8000_0000
  }

  lemma RestOfMultiple(a: int, b: int)
    ensures (1024 * a + b) % 1024 == b % 1024
  {
  }

  lemma TruncatedRest(p: int)
    ensures ToInt32(p) % 1024 == p % 1024
    ensures ToInt32(p) < 0 <==> Negative(p)
  {
    var d, m := p / TWO_32, p % TWO_32;
    assert p == 1024 * (0x40_0000 * d) + m;
    RestOfMultiple(0x40_0000 * d, m);
    RestOfMultiple(-0x40_0000, m);
  }

  lemma NegatedRest(h: int)
    ensures (-h) % 1024 == if h % 1024 == 0 then 0 else 1024 - h % 1024
  {
  }

  lemma SumIsMultiple(h: int, g: int)
    ensures (h + g) % 1024 == 0 <==> (-h) % 1024 == g % 1024
  {
    NegatedRest(h);
  }

  lemma MagnitudeRest(h: int, g: int)
    ensures Magnitude(h) % 1024 == Magnitude(g) % 1024 <==>
            if (h < 0) == (g < 0) then h % 1024 == g % 1024 else (h + g) % 1024 == 0
  {
    NegatedRest(h);
    NegatedRest(g);
    SumIsMultiple(h, g);
    SumIsMultiple(g, h);
  }

  lemma SumRest(h: int, g: int, p: int, q: int)
    requires h % 1024 == p % 1024 && g % 1024 == q % 1024
    ensures (h + g) % 1024 == (p + q) % 1024
  {
  }

  /** When two launches, of whatever runs and ids, share a port: if their hashes have the same
      sign, exactly if the polynomials agree modulo 1024, and otherwise if they cancel. */
  lemma SamePortIff(
    base: int, runId: seq<CodeUnit>, participantId: seq<CodeUnit>,
    runId': seq<CodeUnit>, participantId': seq<CodeUnit>)
    ensures var p := Polynomial(runId + [COLON] + participantId);
            var q := Polynomial(runId' + [COLON] + participantId');
            Port(base, runId, participantId) == Port(base, runId', participantId') <==>
            if Negative(p) == Negative(q) then p % 1024 == q % 1024 else (p + q) % 1024 == 0
  {
    var p := Polynomial(runId + [COLON] + participantId);
    var q := Polynomial(runId' + [COLON] + participantId');
    TruncatedRest(p);
    TruncatedRest(q);
    MagnitudeRest(ToInt32(p), ToInt32(q));
    SumRest(ToInt32(p), ToInt32(q), p, q);
  }
}
