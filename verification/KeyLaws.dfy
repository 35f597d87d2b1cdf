/** The cache key identifies its request: same key, same sender and same scopes. */
module KeyLaws {
  import opened Wrappers
  import opened Sequences
  import opened StringOrder
  import opened CacheKey
  import JsMap

  // ---- Where the sender ends: "::" never occurs outside a JSON string ----

  /** A scanner's place in JSON text. `OutColon`: outside strings, just after a colon. */
  datatype Place = Out | OutColon | In | Esc | Bad

  function Advance(q: Place, c: char): Place {
    match q
    case Out => if c == '"' then In else if c == ':' then OutColon else if c == '\\' then Bad else Out
    case OutColon => if c == '"' then In else if c == ':' || c == '\\' then Bad else Out
    case In => if c == '"' then Out else if c == '\\' then Esc else In
    case Esc => In
    case Bad => Bad
  }

  function Scan(q: Place, s: string): Place
    decreases s
  {
    if s == "" then q else Scan(Advance(q, s[0]), s[1..])
  }

  lemma {:induction false} ScanConcat(q: Place, a: string, b: string)
    ensures Scan(q, a + b) == Scan(Scan(q, a), b)
    decreases a
  {
    if a == "" {
      assert a + b == b;
    } else {
      assert (a + b)[0] == a[0] && (a + b)[1..] == a[1..] + b;
      ScanConcat(Advance(q, a[0]), a[1..], b);
    }
  }

  lemma ScanOne(q: Place, c: char)
    ensures Scan(q, [c]) == Advance(q, c)
  {
    assert [c][1..] == "";
  }

  lemma ScanTwo(q: Place, c: char, d: char)
    ensures Scan(q, [c, d]) == Advance(Advance(q, c), d)
  {
    assert [c, d][1..] == [d];
    ScanOne(Advance(q, c), d);
  }

  predicate Plain(c: char) {
    c != '"' && c != ':' && c != '\\'
  }

  lemma {:induction false} ScanPlain(q: Place, s: string)
    requires s != "" && forall i | 0 <= i < |s| :: Plain(s[i])
    ensures q == In ==> Scan(q, s) == In
    ensures q == Out || q == OutColon ==> Scan(q, s) == Out
    decreases s
  {
    if |s| == 1 {
      assert s == [s[0]];
      ScanOne(q, s[0]);
    } else {
      ScanPlain(Advance(q, s[0]), s[1..]);
    }
  }

  lemma ScanEscape(c: char)
    ensures Scan(In, Escape(c)) == In
  {
    var e := Escape(c);
    if |e| == 2 {
      assert e == [e[0], e[1]];
      ScanTwo(In, e[0], e[1]);
    } else if |e| == 1 {
      ScanOne(In, c);
    } else {
      assert e == "\\u" + e[2..];
      assert forall i | 0 <= i < |e[2..]| :: Plain(e[2..][i]);
      ScanTwo(In, '\\', 'u');
      ScanConcat(In, "\\u", e[2..]);
      ScanPlain(In, e[2..]);
    }
  }

  lemma {:induction false} ScanEscaped(s: string)
    ensures Scan(In, EscapeAll(s)) == In
  {
    if s != "" {
      ScanEscape(s[0]);
      ScanConcat(In, Escape(s[0]), EscapeAll(s[1..]));
      ScanEscaped(s[1..]);
    }
  }

  lemma ScanString(q: Place, s: string, x: string)
    requires q == Out || q == OutColon
    ensures Scan(q, StringText(s) + x) == Scan(Out, x)
  {
    StringStep(s, x);
    var rest := EscapeAll(s) + ("\"" + x);
    ScanOne(q, '"');
    ScanConcat(q, "\"", rest);
    ScanConcat(In, EscapeAll(s), "\"" + x);
    ScanEscaped(s);
    ScanOne(In, '"');
    ScanConcat(In, "\"", x);
  }

  lemma ScanMark(c: char, x: string)
    requires Plain(c)
    ensures Scan(Out, [c] + x) == Scan(OutColon, [c] + x) == Scan(Out, x)
  {
    ScanOne(Out, c);
    ScanOne(OutColon, c);
    ScanConcat(Out, [c], x);
    ScanConcat(OutColon, [c], x);
  }

  lemma {:induction false} ScanModesTail(modes: seq<string>, x: string)
    ensures Scan(Out, ModesTail(modes) + x) == Scan(Out, x)
  {
    ModesTailStep(modes, x);
    if modes == [] {
      ScanMark(']', x);
    } else {
      var rest := ModesTail(modes[1..]) + x;
      ScanMark(',', StringText(modes[0]) + rest);
      ScanString(Out, modes[0], rest);
      ScanModesTail(modes[1..], x);
    }
  }

  lemma ScanModes(modes: seq<string>, x: string)
    ensures Scan(OutColon, ModesText(modes) + x) == Scan(Out, x)
  {
    ModesStep(modes, x);
    if modes == [] {
      ScanMark('[', "]" + x);
      ScanMark(']', x);
    } else {
      var rest := ModesTail(modes[1..]) + x;
      ScanMark('[', StringText(modes[0]) + rest);
      ScanString(Out, modes[0], rest);
      ScanModesTail(modes[1..], x);
    }
  }

  lemma ScanValue(v: ScopeValue, x: string)
    requires !v.Unset? && ValidValue(v)
    ensures Scan(OutColon, ValueText(v) + x) == Scan(Out, x)
  {
    if v.Modes? {
      ScanModes(v.modes, x);
    } else {
      assert forall i | 0 <= i < |ValueText(v)| :: Plain(ValueText(v)[i]);
      ScanPlain(OutColon, ValueText(v));
      ScanConcat(OutColon, ValueText(v), x);
    }
  }

  lemma ScanEntry(e: (string, ScopeValue), x: string)
    requires !e.1.Unset? && ValidValue(e.1)
    ensures Scan(Out, EntryText(e) + x) == Scan(Out, x)
  {
    EntryStep(e, x);
    var rest := ValueText(e.1) + x;
    ScanString(Out, e.0, ":" + rest);
    ScanOne(Out, ':');
    ScanConcat(Out, ":", rest);
    ScanValue(e.1, x);
  }

  lemma {:induction false} ScanEntries(es: Scopes)
    requires AllSet(es) && ValidEntries(es)
    ensures Scan(Out, EntriesTail(es)) == Out
    ensures var t := EntriesTail(es); t[|t| - 1] == '}'
  {
    TailStep(es);
    if es == [] {
      ScanOne(Out, '}');
    } else {
      var rest := EntriesTail(es[1..]);
      TailStep(es[1..]);
      ScanMark(',', EntryText(es[0]) + rest);
      ScanEntry(es[0], rest);
      ScanEntries(es[1..]);
    }
  }

  lemma ScanObject(es: Scopes)
    requires AllSet(es) && ValidEntries(es)
    ensures Scan(Out, ObjectText(es)) == Out
    ensures var t := ObjectText(es); |t| >= 2 && t[0] == '{' && t[|t| - 1] == '}'
  {
    ObjectStep(es);
    BracedText(es);
    if es == [] {
      ScanTwo(Out, '{', '}');
    } else {
      var rest := EntriesTail(es[1..]);
      ScanMark('{', EntryText(es[0]) + rest);
      ScanEntry(es[0], rest);
      ScanEntries(es[1..]);
    }
  }

  lemma BracedText(es: Scopes)
    requires AllSet(es) && ValidEntries(es)
    ensures var t := ObjectText(es); |t| >= 2 && t[0] == '{' && t[|t| - 1] == '}'
  {
    ObjectStep(es);
    if es != [] {
      TailStep(es[1..]);
      ScanEntries(es[1..]);
    }
  }

  predicate Outside(q: Place) {
    q == Out || q == OutColon
  }

  /** Two scans that disagree on being inside a string never both end outside cleanly. */
  lemma {:induction false} QuoteParity(p: Place, q: Place, s: string)
    requires (Outside(p) && q == In) || (p == In && Outside(q))
    ensures !(Scan(p, s) == Out && Scan(q, s) == Out)
    decreases s
  {
    if s != "" {
      var p', q' := Advance(p, s[0]), Advance(q, s[0]);
      if p' == Bad { BadStays(s[1..]); }
      else if q' == Bad { BadStays(s[1..]); }
      else { QuoteParity(p', q', s[1..]); }
    }
  }

  lemma {:induction false} BadStays(s: string)
    ensures Scan(Bad, s) == Bad
  {
    if s != "" { BadStays(s[1..]); }
  }

  lemma AfterColons(q: Place, h: string)
    ensures Scan(q, "::" + h) == Scan(if q == In || q == Esc then In else Bad, h)
  {
    ScanTwo(q, ':', ':');
    ScanConcat(q, "::", h);
  }

  /** No canonical scope text is another one after two colons. */
  lemma NoInnerKey(es: Scopes, fs: Scopes, y: string)
    requires AllSet(es) && ValidEntries(es) && AllSet(fs) && ValidEntries(fs)
    ensures ObjectText(es) != y + ("::" + ObjectText(fs))
  {
    ScanObject(es);
    ScanObject(fs);
    var h := ObjectText(fs);
    var q := Scan(Out, y);
    ScanConcat(Out, y, "::" + h);
    AfterColons(q, h);
    QuoteParity(Out, In, h);
    BadStays(h);
  }

  ghost predicate IsHash(h: string) {
    h == "" || exists es: Scopes :: AllSet(es) && ValidEntries(es) && h == ObjectText(es)
  }

  lemma HashEntries(h: string) returns (es: Scopes)
    requires IsHash(h) && h != ""
    ensures AllSet(es) && ValidEntries(es) && h == ObjectText(es) && h[|h| - 1] == '}'
  {
    es :| AllSet(es) && ValidEntries(es) && h == ObjectText(es);
    ScanObject(es);
  }

  lemma NoInnerHash(h: string, g: string, y: string)
    requires IsHash(h) && IsHash(g)
    ensures h != y + ("::" + g)
  {
    if h != "" {
      var es := HashEntries(h);
      if g == "" {
        var t := y + ("::" + g);
        assert t[|t| - 1] == ':';
      } else {
        var fs := HashEntries(g);
        NoInnerKey(es, fs, y);
      }
    }
  }

  lemma NoLeadingColon(h: string, g: string)
    requires IsHash(h)
    ensures h != ":" + g
  {
    if h != "" {
      var es: Scopes :| AllSet(es) && ValidEntries(es) && h == ObjectText(es);
      ScanObject(es);
    }
  }

  lemma OverhangRest(d: string, g: string)
    requires d != ""
    ensures (d + ("::" + g))[2..] == if |d| == 1 then ":" + g else d[2..] + ("::" + g)
  {
  }

  /** What would be left of a longer sender cannot be made up for by the hash. */
  lemma NoOverhang(h: string, g: string, d: string)
    requires IsHash(h) && IsHash(g) && d != ""
    ensures "::" + h != d + ("::" + g)
  {
    OverhangRest(d, g);
    assert ("::" + h)[2..] == h;
    if |d| == 1 { NoLeadingColon(h, g); } else { NoInnerHash(h, g, d[2..]); }
  }

  lemma SplitLonger(s: string, t: string, h: string, g: string)
    requires IsHash(h) && IsHash(g) && s + ("::" + h) == t + ("::" + g)
    ensures |s| >= |t|
  {
    if |s| < |t| {
      assert (s + ("::" + h))[|s|..] == "::" + h;
      assert (t + ("::" + g))[|s|..] == t[|s|..] + ("::" + g);
      NoOverhang(h, g, t[|s|..]);
    }
  }

  /** A key splits into sender and scope hash in one way only, whatever the sender holds. */
  lemma KeySplits(s: string, t: string, h: string, g: string)
    requires IsHash(h) && IsHash(g) && s + "::" + h == t + "::" + g
    ensures s == t && h == g
  {
    Regroup(s, "::", h);
    Regroup(t, "::", g);
    SplitLonger(s, t, h, g);
    SplitLonger(t, s, g, h);
    Peel(s, "::" + h, t, "::" + g);
    Peel("::", h, "::", g);
  }

  // ---- What the scopes mean ----

  /** A field up to the order of its modes. */
  datatype FieldMeaning =
    | FlagField(b: bool)
    | NumberField(literal: string)
    | ModeBag(modes: multiset<string>)

  function MeaningOf(v: ScopeValue): FieldMeaning
    requires !v.Unset?
  {
    match v
    case Flag(b) => FlagField(b)
    case Number(literal) => NumberField(literal)
    case Modes(modes) => ModeBag(multiset(modes))
  }

  /** The set fields, forgetting key order and mode order. */
  function Meaning(o: Scopes): map<string, FieldMeaning> {
    var fields := JsMap.View(o);
    map k | k in fields && !fields[k].Unset? :: MeaningOf(fields[k])
  }

  lemma SortedValueIsMeaning(v: ScopeValue, w: ScopeValue)
    requires !v.Unset? && !w.Unset?
    ensures SortedValue(v) == SortedValue(w) <==> MeaningOf(v) == MeaningOf(w)
  {
    if v.Modes? && w.Modes? {
      SortSorts(v.modes);
      SortSorts(w.modes);
      if multiset(v.modes) == multiset(w.modes) { SortedUnique(Sort(v.modes), Sort(w.modes)); }
    }
  }

  lemma {:induction false} OrderedHas(keys: seq<string>, fields: map<string, ScopeValue>, e: (string, ScopeValue))
    requires forall k | k in keys :: k in fields
    ensures e in Ordered(keys, fields) <==>
      e.0 in keys && !fields[e.0].Unset? && e.1 == SortedValue(fields[e.0])
  {
    if keys != [] {
      OrderedHas(keys[1..], fields, e);
      assert keys == [keys[0]] + keys[1..];
    }
  }

  lemma {:induction false} KeysOfHas(es: Scopes, k: string)
    ensures k in KeysOf(es) <==> exists v :: (k, v) in es
  {
    if es != [] {
      KeysOfHas(es[1..], k);
      assert es == [es[0]] + es[1..];
      if k == es[0].0 { assert (k, es[0].1) in es; }
    }
  }

  lemma {:induction false} OrderedKeysSorted(keys: seq<string>, fields: map<string, ScopeValue>)
    requires StrictlySorted(keys) && forall k | k in keys :: k in fields
    ensures StrictlySorted(KeysOf(Ordered(keys, fields)))
  {
    if keys != [] {
      TailOf(keys);
      OrderedKeysSorted(keys[1..], fields);
      var rest := KeysOf(Ordered(keys[1..], fields));
      forall j | 0 <= j < |rest| ensures Le(keys[0], rest[j]) && keys[0] != rest[j] {
        assert rest[j] in rest;
        KeysOfHas(Ordered(keys[1..], fields), rest[j]);
        var v :| (rest[j], v) in Ordered(keys[1..], fields);
        OrderedHas(keys[1..], fields, (rest[j], v));
        var i :| 0 <= i < |keys[1..]| && keys[1..][i] == rest[j];
        assert keys[1..][i] == keys[i + 1];
      }
    }
  }

  /** Entries with the same strictly sorted keys and the same members are the same. */
  lemma {:induction false} EntriesUnique(a: Scopes, b: Scopes)
    requires StrictlySorted(KeysOf(a)) && KeysOf(a) == KeysOf(b)
    requires forall e :: e in a <==> e in b
    ensures a == b
  {
    if a != [] {
      var ks := KeysOf(a);
      TailOf(ks);
      assert a == [a[0]] + a[1..] && b == [b[0]] + b[1..];
      HeadOnly(a, b[0]);
      forall e ensures e in a[1..] <==> e in b[1..] {
        InTail(a, e);
        InTail(b, e);
      }
      EntriesUnique(a[1..], b[1..]);
    }
  }

  lemma InTail(a: Scopes, e: (string, ScopeValue))
    requires a != [] && StrictlySorted(KeysOf(a))
    ensures e in a[1..] <==> e in a && e.0 != a[0].0
  {
    assert a == [a[0]] + a[1..];
    TailOf(KeysOf(a));
    KeysOfHas(a[1..], e.0);
    assert e == (e.0, e.1);
  }

  lemma HeadOnly(a: Scopes, e: (string, ScopeValue))
    requires a != [] && StrictlySorted(KeysOf(a)) && e in a && e.0 == a[0].0
    ensures e == a[0]
  {
    InTail(a, e);
    assert a == [a[0]] + a[1..];
  }

  lemma {:induction false} KeysOfDistinct(o: Scopes)
    requires JsMap.Distinct(o)
    ensures forall i, j | 0 <= i < j < |KeysOf(o)| :: KeysOf(o)[i] != KeysOf(o)[j]
  {
    KeysOfAt(o);
  }

  lemma {:induction false} KeysOfAt(o: Scopes)
    ensures |KeysOf(o)| == |o| && forall i | 0 <= i < |o| :: KeysOf(o)[i] == o[i].0
  {
    if o != [] {
      KeysOfAt(o[1..]);
      assert forall i | 1 <= i < |o| :: o[1..][i - 1] == o[i] && KeysOf(o)[i] == KeysOf(o[1..])[i - 1];
    }
  }

  lemma {:induction false} InsertNoDuplicates(x: string, s: seq<string>)
    requires NoDuplicates(s) && x !in s
    ensures NoDuplicates(Insert(x, s))
  {
    if s != [] && !Le(x, s[0]) {
      var tail := s[1..];
      assert forall i | 0 <= i < |tail| :: tail[i] == s[i + 1];
      InsertNoDuplicates(x, tail);
      InsertPermutes(x, tail);
      var rest := Insert(x, tail);
      forall j | 0 <= j < |rest| ensures s[0] != rest[j] {
        assert rest[j] in multiset(rest);
      }
    }
  }

  lemma {:induction false} SortNoDuplicates(s: seq<string>)
    requires NoDuplicates(s)
    ensures NoDuplicates(Sort(s))
  {
    if s != [] {
      var tail := s[1..];
      assert forall i | 0 <= i < |tail| :: tail[i] == s[i + 1];
      SortNoDuplicates(tail);
      SortSorts(tail);
      assert s[0] !in multiset(tail);
      InsertNoDuplicates(s[0], Sort(tail));
    }
  }

  lemma SortedDistinctIsStrict(o: Scopes)
    requires JsMap.Distinct(o)
    ensures StrictlySorted(Sort(KeysOf(o)))
  {
    KeysOfDistinct(o);
    SortSorts(KeysOf(o));
    SortNoDuplicates(KeysOf(o));
  }

  lemma CanonicalHas(o: Scopes, e: (string, ScopeValue))
    ensures var fields := JsMap.View(o);
      e in Canonical(o) <==> e.0 in fields && !fields[e.0].Unset? && e.1 == SortedValue(fields[e.0])
  {
    SortedKeys(o);
    OrderedHas(Sort(KeysOf(o)), JsMap.View(o), e);
  }

  lemma MeaningFromCanonical(o: Scopes, p: Scopes, k: string)
    requires Canonical(o) == Canonical(p) && k in Meaning(o)
    ensures k in Meaning(p) && Meaning(p)[k] == Meaning(o)[k]
  {
    var v := JsMap.View(o)[k];
    CanonicalHas(o, (k, SortedValue(v)));
    CanonicalHas(p, (k, SortedValue(v)));
    SortedValueIsMeaning(v, JsMap.View(p)[k]);
  }

  lemma CanonicalFromMeaning(o: Scopes, p: Scopes, e: (string, ScopeValue))
    requires Meaning(o) == Meaning(p) && e in Canonical(o)
    ensures e in Canonical(p)
  {
    CanonicalHas(o, e);
    CanonicalHas(p, e);
    assert e.0 in Meaning(o) && e.0 in Meaning(p);
    SortedValueIsMeaning(JsMap.View(o)[e.0], JsMap.View(p)[e.0]);
  }

  lemma SameKeys(a: Scopes, b: Scopes)
    requires forall e :: e in a <==> e in b
    ensures forall k :: k in KeysOf(a) <==> k in KeysOf(b)
  {
    forall k ensures k in KeysOf(a) <==> k in KeysOf(b) {
      KeysOfHas(a, k);
      KeysOfHas(b, k);
    }
  }

  /** The canonical form forgets exactly key order, mode order and unset fields. */
  lemma CanonicalIsMeaning(o: Scopes, p: Scopes)
    requires JsMap.Distinct(o) && JsMap.Distinct(p)
    ensures Canonical(o) == Canonical(p) <==> Meaning(o) == Meaning(p)
  {
    if Canonical(o) == Canonical(p) {
      forall k ensures k in Meaning(o) <==> k in Meaning(p) {
        if k in Meaning(o) { MeaningFromCanonical(o, p, k); }
        if k in Meaning(p) { MeaningFromCanonical(p, o, k); }
      }
      forall k | k in Meaning(o) ensures Meaning(o)[k] == Meaning(p)[k] {
        MeaningFromCanonical(o, p, k);
      }
      assert Meaning(o) == Meaning(p);
    }
    if Meaning(o) == Meaning(p) {
      var a, b := Canonical(o), Canonical(p);
      forall e ensures e in a <==> e in b {
        if e in a { CanonicalFromMeaning(o, p, e); }
        if e in b { CanonicalFromMeaning(p, o, e); }
      }
      SortedKeys(o);
      SortedKeys(p);
      SortedDistinctIsStrict(o);
      SortedDistinctIsStrict(p);
      OrderedKeysSorted(Sort(KeysOf(o)), JsMap.View(o));
      OrderedKeysSorted(Sort(KeysOf(p)), JsMap.View(p));
      SameKeys(a, b);
      StrictlySortedUnique(KeysOf(a), KeysOf(b));
      EntriesUnique(a, b);
    }
  }

  lemma {:induction false} ViewValid(o: Scopes, k: string)
    requires ValidEntries(o) && k in JsMap.View(o)
    ensures ValidValue(JsMap.View(o)[k])
  {
    if k != o[0].0 { ViewValid(o[1..], k); }
  }

  lemma CanonicalValid(o: Scopes)
    requires JsMap.Distinct(o) && ValidEntries(o)
    ensures ValidEntries(Canonical(o))
  {
    var es := Canonical(o);
    forall i | 0 <= i < |es| ensures ValidValue(es[i].1) {
      assert es[i] in es;
      CanonicalHas(o, es[i]);
      ViewValid(o, es[i].0);
    }
  }

  ghost predicate SameScopes(o: Option<Scopes>, p: Option<Scopes>) {
    match (o, p)
    case (None, None) => true
    case (Some(a), Some(b)) => Meaning(a) == Meaning(b)
    case _ => false
  }

  lemma HashIsHash(o: Option<Scopes>)
    requires ValidScopes(o)
    ensures IsHash(ScopeHash(o)) && (ScopeHash(o) == "" <==> o.None?)
  {
    if o.Some? {
      CanonicalValid(o.value);
      ScanObject(Canonical(o.value));
    }
  }

  /** Two requests share a key exactly when their senders are equal and their scopes are
      both absent or equal up to key order, mode order and unset fields. */
  lemma KeyIdentifiesRequest(s: string, o: Option<Scopes>, t: string, p: Option<Scopes>)
    requires ValidScopes(o) && ValidScopes(p)
    ensures Key(s, o) == Key(t, p) <==> s == t && SameScopes(o, p)
  {
    HashIsHash(o);
    HashIsHash(p);
    if o.Some? && p.Some? {
      CanonicalIsMeaning(o.value, p.value);
      CanonicalValid(o.value);
      CanonicalValid(p.value);
      if ScopeHash(o) == ScopeHash(p) { ObjectTextInjective(Canonical(o.value), Canonical(p.value)); }
    }
    if Key(s, o) == Key(t, p) { KeySplits(s, t, ScopeHash(o), ScopeHash(p)); }
  }
}
