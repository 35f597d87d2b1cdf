/** The token cache key (`cacheKey` and `stableScopeHash` of
    src/auth/auth-token-minter.service.ts): sender, two colons, a canonical JSON text. */
module CacheKey {
  import opened Wrappers
  import opened StringOrder
  import JsMap

  // ---- Scopes ----

  /** A scope field: unset, a flag, a number by its JSON literal, or a list of modes. */
  datatype ScopeValue =
    | Unset
    | Flag(b: bool)
    | Number(literal: string)
    | Modes(modes: seq<string>)

  type Scopes = seq<(string, ScopeValue)>

  predicate IsNumberChar(c: char) {
    '0' <= c <= '9' || c == '-' || c == '+' || c == '.' || c == 'e' || c == 'E'
  }

  predicate ValidValue(v: ScopeValue) {
    v.Number? ==> v.literal != "" && forall i | 0 <= i < |v.literal| :: IsNumberChar(v.literal[i])
  }

  ghost predicate ValidEntries(es: Scopes) {
    forall i | 0 <= i < |es| :: ValidValue(es[i].1)
  }

  /** A JavaScript object of scope fields: distinct keys in insertion order. */
  ghost predicate ValidScopes(o: Option<Scopes>) {
    o.Some? ==> JsMap.Distinct(o.value) && ValidEntries(o.value)
  }

  // ---- JSON.stringify ----

  function HexDigit(n: nat): char
    requires n < 16
  {
    if n < 10 then '0' + n as char else 'a' + (n - 10) as char
  }

  function Escape(c: char): string {
    if c == '"' then "\\\""
    else if c == '\\' then "\\\\"
    else if c == '\U{0008}' then "\\b"
    else if c == '\U{000C}' then "\\f"
    else if c == '\n' then "\\n"
    else if c == '\r' then "\\r"
    else if c == '\t' then "\\t"
    else if c < ' ' then "\\u00" + [HexDigit(c as int / 16), HexDigit(c as int % 16)]
    else [c]
  }

  function EscapeAll(s: string): string {
    if s == "" then "" else Escape(s[0]) + EscapeAll(s[1..])
  }

  function StringText(s: string): string {
    "\"" + EscapeAll(s) + "\""
  }

  function ModesTail(modes: seq<string>): string {
    if modes == [] then "]" else "," + StringText(modes[0]) + ModesTail(modes[1..])
  }

  function ModesText(modes: seq<string>): string {
    if modes == [] then "[]" else "[" + StringText(modes[0]) + ModesTail(modes[1..])
  }

  function ValueText(v: ScopeValue): string
    requires !v.Unset?
  {
    match v
    case Flag(b) => if b then "true" else "false"
    case Number(literal) => literal
    case Modes(modes) => ModesText(modes)
  }

  function EntryText(e: (string, ScopeValue)): string
    requires !e.1.Unset?
  {
    StringText(e.0) + ":" + ValueText(e.1)
  }

  predicate AllSet(es: Scopes) {
    forall i | 0 <= i < |es| :: !es[i].1.Unset?
  }

  function EntriesTail(es: Scopes): string
    requires AllSet(es)
  {
    if es == [] then "}" else "," + EntryText(es[0]) + EntriesTail(es[1..])
  }

  function ObjectText(es: Scopes): string
    requires AllSet(es)
  {
    if es == [] then "{}" else "{" + EntryText(es[0]) + EntriesTail(es[1..])
  }

  // ---- The key ----

  function KeysOf(o: Scopes): seq<string> {
    if o == [] then [] else [o[0].0] + KeysOf(o[1..])
  }

  function SortedValue(v: ScopeValue): ScopeValue {
    if v.Modes? then Modes(Sort(v.modes)) else v
  }

  /** The fields in key order with their arrays sorted; JSON.stringify skips unset ones. */
  function Ordered(keys: seq<string>, fields: map<string, ScopeValue>): (es: Scopes)
    requires forall k | k in keys :: k in fields
    ensures AllSet(es)
  {
    if keys == [] then []
    else
      var rest := Ordered(keys[1..], fields);
      var v := SortedValue(fields[keys[0]]);
      if v.Unset? then rest else [(keys[0], v)] + rest
  }

  lemma KeysAreFields(o: Scopes, k: string)
    ensures k in KeysOf(o) <==> k in JsMap.View(o)
  {
  }

  lemma SortedKeys(o: Scopes)
    ensures forall k :: k in Sort(KeysOf(o)) <==> k in JsMap.View(o)
  {
    SortSorts(KeysOf(o));
    forall k ensures k in Sort(KeysOf(o)) <==> k in JsMap.View(o) {
      KeysAreFields(o, k);
      assert k in Sort(KeysOf(o)) <==> k in multiset(Sort(KeysOf(o)));
      assert k in KeysOf(o) <==> k in multiset(KeysOf(o));
    }
  }

  function Canonical(o: Scopes): (es: Scopes)
    ensures AllSet(es)
  {
    SortedKeys(o);
    Ordered(Sort(KeysOf(o)), JsMap.View(o))
  }

  function ScopeHash(o: Option<Scopes>): string {
    if o.None? then "" else ObjectText(Canonical(o.value))
  }

  function Key(sender: string, o: Option<Scopes>): string {
    sender + "::" + ScopeHash(o)
  }

  lemma OrderedStep(keys: seq<string>, i: nat, fields: map<string, ScopeValue>, done: Scopes)
    requires i < |keys| && forall k | k in keys :: k in fields
    ensures var v := SortedValue(fields[keys[i]]);
      done + Ordered(keys[i..], fields) ==
        (if v.Unset? then done else done + [(keys[i], v)]) + Ordered(keys[i + 1..], fields)
  {
    assert keys[i..][0] == keys[i] && keys[i..][1..] == keys[i + 1..];
    var v, rest := SortedValue(fields[keys[i]]), Ordered(keys[i + 1..], fields);
    if !v.Unset? { assert done + ([(keys[i], v)] + rest) == (done + [(keys[i], v)]) + rest; }
  }

  /** The loop of the source over the sorted keys. */
  method StableScopeHash(o: Option<Scopes>) returns (h: string)
    ensures h == ScopeHash(o)
  {
    if o.None? { return ""; }
    var keys := Sort(KeysOf(o.value));
    var fields := JsMap.View(o.value);
    SortedKeys(o.value);
    var ordered: Scopes := [];
    var i := 0;
    assert keys[0..] == keys;
    while i < |keys|
      invariant 0 <= i <= |keys| && AllSet(ordered)
      invariant Canonical(o.value) == ordered + Ordered(keys[i..], fields)
      decreases |keys| - i
    {
      OrderedStep(keys, i, fields, ordered);
      var value := fields[keys[i]];
      match value {
        case Modes(modes) => ordered := ordered + [(keys[i], Modes(Sort(modes)))];
        case Unset =>
        case _ => ordered := ordered + [(keys[i], value)];
      }
      i := i + 1;
    }
    assert ordered + [] == ordered;
    h := ObjectText(ordered);
  }

  // ---- Reading the text back: no prefix of one value is another's ----

  lemma Peel(p: string, s: string, q: string, t: string)
    requires p + s == q + t && |p| == |q|
    ensures p == q && s == t
  {
    assert p == (p + s)[..|p|] && q == (q + t)[..|q|];
    assert s == (p + s)[|p|..] && t == (q + t)[|q|..];
  }

  lemma Regroup(p: string, q: string, r: string)
    ensures (p + q) + r == p + (q + r)
  {
  }

  lemma HeadOf(p: string, s: string)
    requires p != ""
    ensures p + s != "" && (p + s)[0] == p[0]
  {
  }

  lemma EscapeInjective(c: char, d: char)
    requires Escape(c) == Escape(d)
    ensures c == d
  {
    if |Escape(c)| == 6 {
      assert Escape(c)[4] == HexDigit(c as int / 16) && Escape(d)[4] == HexDigit(d as int / 16);
      assert Escape(c)[5] == HexDigit(c as int % 16) && Escape(d)[5] == HexDigit(d as int % 16);
    } else if |Escape(c)| == 2 {
      assert Escape(c)[1] == Escape(d)[1];
    } else {
      assert Escape(c)[0] == Escape(d)[0];
    }
  }

  lemma EscapePrefixFree(c: char, d: char, x: string, y: string)
    requires Escape(c) + x == Escape(d) + y
    ensures c == d && x == y
  {
    var l, r := Escape(c) + x, Escape(d) + y;
    assert l[0] == Escape(c)[0] && r[0] == Escape(d)[0];
    assert |Escape(c)| == |Escape(d)| by {
      if |Escape(c)| >= 2 && |Escape(d)| >= 2 {
        assert l[1] == Escape(c)[1] && r[1] == Escape(d)[1];
      }
    }
    Peel(Escape(c), x, Escape(d), y);
    EscapeInjective(c, d);
  }

  lemma EscapedStep(a: string, x: string)
    requires a != ""
    ensures EscapeAll(a) + x == Escape(a[0]) + (EscapeAll(a[1..]) + x)
  {
    Regroup(Escape(a[0]), EscapeAll(a[1..]), x);
  }

  lemma EscapedHead(a: string, x: string)
    requires x != "" && x[0] == '"'
    ensures var t := EscapeAll(a) + x; t != "" && (t[0] == '"' <==> a == "")
  {
    if a != "" {
      EscapedStep(a, x);
      HeadOf(Escape(a[0]), EscapeAll(a[1..]) + x);
    } else {
      assert EscapeAll(a) + x == x;
    }
  }

  lemma {:induction false} EscapedPrefixFree(a: string, b: string, x: string, y: string)
    requires x != "" && x[0] == '"' && y != "" && y[0] == '"'
    requires EscapeAll(a) + x == EscapeAll(b) + y
    ensures a == b && x == y
  {
    EscapedHead(a, x);
    EscapedHead(b, y);
    if a == "" {
      Peel("", x, "", y);
    } else {
      EscapedStep(a, x);
      EscapedStep(b, y);
      EscapePrefixFree(a[0], b[0], EscapeAll(a[1..]) + x, EscapeAll(b[1..]) + y);
      EscapedPrefixFree(a[1..], b[1..], x, y);
      assert a == [a[0]] + a[1..] && b == [b[0]] + b[1..];
    }
  }

  lemma StringStep(a: string, x: string)
    ensures StringText(a) + x == "\"" + (EscapeAll(a) + ("\"" + x))
  {
    Regroup(EscapeAll(a), "\"", x);
  }

  lemma StringPrefixFree(a: string, b: string, x: string, y: string)
    requires StringText(a) + x == StringText(b) + y
    ensures a == b && x == y
  {
    StringStep(a, x);
    StringStep(b, y);
    Peel("\"", EscapeAll(a) + ("\"" + x), "\"", EscapeAll(b) + ("\"" + y));
    EscapedPrefixFree(a, b, "\"" + x, "\"" + y);
    Peel("\"", x, "\"", y);
  }

  /** What can follow a value inside an object. */
  predicate Delimited(x: string) {
    x != "" && (x[0] == ',' || x[0] == '}')
  }

  lemma LiteralNotShorter(a: string, b: string, x: string, y: string)
    requires a + x == b + y && Delimited(x)
    requires forall i | 0 <= i < |b| :: IsNumberChar(b[i])
    ensures |a| >= |b|
  {
    assert (a + x)[|a|] == x[0];
    assert forall i | 0 <= i < |b| :: (b + y)[i] == b[i];
  }

  lemma LiteralPrefixFree(a: string, b: string, x: string, y: string)
    requires a + x == b + y && Delimited(x) && Delimited(y)
    requires forall i | 0 <= i < |a| :: IsNumberChar(a[i])
    requires forall i | 0 <= i < |b| :: IsNumberChar(b[i])
    ensures a == b && x == y
  {
    LiteralNotShorter(a, b, x, y);
    LiteralNotShorter(b, a, y, x);
    Peel(a, x, b, y);
  }

  lemma ModesTailStep(a: seq<string>, x: string)
    ensures var t := ModesTail(a) + x;
      t != "" && (t[0] == ']' <==> a == []) &&
      t == if a == [] then "]" + x else "," + (StringText(a[0]) + (ModesTail(a[1..]) + x))
  {
    if a != [] {
      Regroup(StringText(a[0]), ModesTail(a[1..]), x);
      Regroup(",", StringText(a[0]), ModesTail(a[1..]));
      Regroup(",", StringText(a[0]) + ModesTail(a[1..]), x);
    }
  }

  lemma {:induction false} ModesTailPrefixFree(a: seq<string>, b: seq<string>, x: string, y: string)
    requires ModesTail(a) + x == ModesTail(b) + y
    ensures a == b && x == y
  {
    ModesTailStep(a, x);
    ModesTailStep(b, y);
    if a == [] {
      Peel("]", x, "]", y);
    } else {
      var u, v := ModesTail(a[1..]) + x, ModesTail(b[1..]) + y;
      Peel(",", StringText(a[0]) + u, ",", StringText(b[0]) + v);
      StringPrefixFree(a[0], b[0], u, v);
      ModesTailPrefixFree(a[1..], b[1..], x, y);
      assert a == [a[0]] + a[1..] && b == [b[0]] + b[1..];
    }
  }

  lemma ModesStep(a: seq<string>, x: string)
    ensures var t := ModesText(a) + x;
      t == "[" + (if a == [] then "]" + x else StringText(a[0]) + (ModesTail(a[1..]) + x))
  {
    if a != [] {
      Regroup(StringText(a[0]), ModesTail(a[1..]), x);
      Regroup("[", StringText(a[0]), ModesTail(a[1..]));
    }
  }

  lemma ModesSecond(a: seq<string>, x: string)
    ensures var t := ModesText(a) + x; |t| >= 2 && (t[1] == ']' <==> a == [])
  {
    ModesStep(a, x);
    if a != [] { StringStep(a[0], ModesTail(a[1..]) + x); }
  }

  lemma ModesPrefixFree(a: seq<string>, b: seq<string>, x: string, y: string)
    requires ModesText(a) + x == ModesText(b) + y
    ensures a == b && x == y
  {
    ModesSecond(a, x);
    ModesSecond(b, y);
    if a == [] {
      Peel("[]", x, "[]", y);
    } else {
      ModesStep(a, x);
      ModesStep(b, y);
      var u, v := ModesTail(a[1..]) + x, ModesTail(b[1..]) + y;
      Peel("[", StringText(a[0]) + u, "[", StringText(b[0]) + v);
      StringPrefixFree(a[0], b[0], u, v);
      ModesTailPrefixFree(a[1..], b[1..], x, y);
      assert a == [a[0]] + a[1..] && b == [b[0]] + b[1..];
    }
  }

  /** The first character of a value tells its kind (and which flag). */
  lemma ValueHead(v: ScopeValue, x: string)
    requires !v.Unset? && ValidValue(v)
    ensures ValueText(v) != "" && (ValueText(v) + x)[0] == ValueText(v)[0]
    ensures v.Flag? <==> ValueText(v)[0] in "tf"
    ensures v.Flag? ==> (v.b <==> ValueText(v)[0] == 't')
    ensures v.Modes? <==> ValueText(v)[0] == '['
  {
    HeadOf(ValueText(v), x);
    if v.Modes? { ModesStep(v.modes, ""); }
  }

  lemma ValuePrefixFree(v: ScopeValue, w: ScopeValue, x: string, y: string)
    requires !v.Unset? && !w.Unset? && ValidValue(v) && ValidValue(w)
    requires ValueText(v) + x == ValueText(w) + y && Delimited(x) && Delimited(y)
    ensures v == w && x == y
  {
    ValueHead(v, x);
    ValueHead(w, y);
    match v
    case Flag(b) =>
      assert w == v;
      Peel(ValueText(v), x, ValueText(w), y);
    case Number(literal) =>
      LiteralPrefixFree(literal, w.literal, x, y);
    case Modes(modes) =>
      ModesPrefixFree(modes, w.modes, x, y);
  }

  lemma EntryStep(e: (string, ScopeValue), x: string)
    requires !e.1.Unset?
    ensures EntryText(e) + x == StringText(e.0) + (":" + (ValueText(e.1) + x))
  {
    Regroup(StringText(e.0) + ":", ValueText(e.1), x);
    Regroup(StringText(e.0), ":", ValueText(e.1) + x);
  }

  lemma EntryPrefixFree(e: (string, ScopeValue), f: (string, ScopeValue), x: string, y: string)
    requires !e.1.Unset? && !f.1.Unset? && ValidValue(e.1) && ValidValue(f.1)
    requires EntryText(e) + x == EntryText(f) + y && Delimited(x) && Delimited(y)
    ensures e == f && x == y
  {
    var u, v := ValueText(e.1) + x, ValueText(f.1) + y;
    EntryStep(e, x);
    EntryStep(f, y);
    StringPrefixFree(e.0, f.0, ":" + u, ":" + v);
    Peel(":", u, ":", v);
    ValuePrefixFree(e.1, f.1, x, y);
  }

  lemma TailStep(es: Scopes)
    requires AllSet(es)
    ensures Delimited(EntriesTail(es)) && (EntriesTail(es)[0] == '}' <==> es == [])
    ensures es != [] ==> EntriesTail(es) == "," + (EntryText(es[0]) + EntriesTail(es[1..]))
  {
    if es != [] { Regroup(",", EntryText(es[0]), EntriesTail(es[1..])); }
  }

  lemma {:induction false} EntriesInjective(a: Scopes, b: Scopes)
    requires AllSet(a) && AllSet(b) && ValidEntries(a) && ValidEntries(b)
    requires EntriesTail(a) == EntriesTail(b)
    ensures a == b
  {
    TailStep(a);
    TailStep(b);
    if a != [] {
      var x, y := EntriesTail(a[1..]), EntriesTail(b[1..]);
      TailStep(a[1..]);
      TailStep(b[1..]);
      Peel(",", EntryText(a[0]) + x, ",", EntryText(b[0]) + y);
      EntryPrefixFree(a[0], b[0], x, y);
      EntriesInjective(a[1..], b[1..]);
      assert a == [a[0]] + a[1..] && b == [b[0]] + b[1..];
    }
  }

  /** An object is an opening brace and then the tail without its leading comma. */
  lemma ObjectStep(es: Scopes)
    requires AllSet(es)
    ensures es == [] ==> ObjectText(es) == "{" + "}"
    ensures es != [] ==> ObjectText(es) == "{" + (EntryText(es[0]) + EntriesTail(es[1..]))
    ensures |ObjectText(es)| >= 2 && (ObjectText(es)[1] == '}' <==> es == [])
  {
    if es != [] {
      Regroup("{", EntryText(es[0]), EntriesTail(es[1..]));
      EntryStep(es[0], EntriesTail(es[1..]));
      StringStep(es[0].0, ":" + (ValueText(es[0].1) + EntriesTail(es[1..])));
    }
  }

  /** The JSON text determines the entries. */
  lemma ObjectTextInjective(a: Scopes, b: Scopes)
    requires AllSet(a) && AllSet(b) && ValidEntries(a) && ValidEntries(b)
    requires ObjectText(a) == ObjectText(b)
    ensures a == b
  {
    ObjectStep(a);
    ObjectStep(b);
    if a != [] {
      var x, y := EntryText(a[0]) + EntriesTail(a[1..]), EntryText(b[0]) + EntriesTail(b[1..]);
      Peel("{", x, "{", y);
      TailStep(a);
      TailStep(b);
      EntriesInjective(a, b);
    }
  }
}
