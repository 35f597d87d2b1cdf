/** Template substitution (src/compiler/template-resolver.ts) and the static placeholder check
    (scripts/scenario/validate.ts): two independent traversals that agree exactly. */
module Templates {
  import opened Wrappers
  import opened Sequences
  import opened Json
  import opened Placeholders

  // ---- Paths ----

  predicate IsDigit(c: char) {
    '0' <= c <= '9'
  }

  function DigitsValue(s: string): nat
    requires forall i | 0 <= i < |s| :: IsDigit(s[i])
  {
    if s == "" then 0
    else
      assert IsDigit(s[|s| - 1]);
      DigitsValue(s[..|s| - 1]) * 10 + (s[|s| - 1] as int - '0' as int)
  }

  /** The element that a property name selects in an array, in canonical decimal form. */
  function ArrayIndex(part: string): Option<nat> {
    if part != "" && (forall i | 0 <= i < |part| :: IsDigit(part[i])) && (part[0] != '0' || part == "0")
    then Some(DigitsValue(part)) else None
  }

  predicate IsObject(v: Value) {
    v.Obj? || v.Arr?
  }

  /** Reading a property of an object or of an array. */
  function Property(v: Value, part: string): Value
    requires IsObject(v)
  {
    match v
    case Arr(items) =>
      if part == "length" then Num(|items| as real)
      else
        var i := ArrayIndex(part);
        if i.Some? && i.value < |items| then items[i.value] else Undefined
    case Obj(fields) => if part in fields then fields[part] else Undefined
  }

  /** What the resolver finds: `undefined` as soon as something on the way is no object. */
  function Walk(current: Value, parts: seq<string>): Value
    decreases |parts|
  {
    if parts == [] then current
    else if IsObject(current) then Walk(Property(current, parts[0]), parts[1..])
    else Undefined
  }

  function Resolve(variables: Value, path: string): Value {
    Walk(variables, Split(path, '.'))
  }

  /** What the checker answers. */
  predicate Reaches(cur: Value, parts: seq<string>)
    decreases |parts|
  {
    if parts == [] then !cur.Undefined?
    else IsObject(cur) && Reaches(Property(cur, parts[0]), parts[1..])
  }

  lemma {:induction false} ReachesIff(v: Value, parts: seq<string>)
    ensures Reaches(v, parts) <==> !Walk(v, parts).Undefined?
    decreases |parts|
  {
    if parts != [] && IsObject(v) {
      ReachesIff(Property(v, parts[0]), parts[1..]);
    }
  }

  // ---- What reading a path means ----

  /** The decimal numeral of a number, without leading zeros. */
  function Decimal(n: nat): (d: string)
    ensures d != "" && forall i | 0 <= i < |d| :: IsDigit(d[i])
  {
    var last := [('0' as int + n % 10) as char];
    if n < 10 then last else Decimal(n / 10) + last
  }

  lemma {:induction false} DecimalReads(n: nat)
    ensures DigitsValue(Decimal(n)) == n && (Decimal(n)[0] == '0' <==> n == 0) && (n == 0 ==> Decimal(n) == "0")
  {
    var d := Decimal(n);
    if n < 10 {
      assert d[..0] == "";
    } else {
      DecimalReads(n / 10);
      assert d[..|d| - 1] == Decimal(n / 10);
    }
  }

  lemma {:induction false} ReadsDecimal(part: string)
    requires part != "" && (forall i | 0 <= i < |part| :: IsDigit(part[i])) && (part[0] != '0' || part == "0")
    ensures Decimal(DigitsValue(part)) == part
    decreases |part|
  {
    var init, last := part[..|part| - 1], part[|part| - 1];
    assert part == init + [last];
    if init == "" {
      assert DigitsValue(part) == last as int - '0' as int;
    } else {
      ReadsDecimal(init);
      var n := DigitsValue(init);
      assert n > 0 by { DecimalReads(n); }
      assert DigitsValue(part) == n * 10 + (last as int - '0' as int);
    }
  }

  /** A property name selects element `n` of an array just if it is the numeral of `n`. */
  lemma ArrayIndexIff(part: string, n: nat)
    ensures ArrayIndex(part) == Some(n) <==> part == Decimal(n)
  {
    DecimalReads(n);
    if ArrayIndex(part) == Some(n) { ReadsDecimal(part); }
  }

  /** One step of a path: an element or the length of an array, a field of an object. */
  lemma PropertyReads(v: Value, part: string)
    requires IsObject(v)
    ensures v.Obj? ==> Property(v, part) == if part in v.fields then v.fields[part] else Undefined
    ensures v.Arr? && part == "length" ==> Property(v, part) == Num(|v.items| as real)
    ensures v.Arr? ==> forall n: nat | part == Decimal(n) ::
              Property(v, part) == if n < |v.items| then v.items[n] else Undefined
    ensures v.Arr? && part != "length" && (forall n: nat :: part != Decimal(n)) ==> Property(v, part) == Undefined
  {
    forall n: nat ensures ArrayIndex(part) == Some(n) <==> part == Decimal(n) { ArrayIndexIff(part, n); }
    forall n: nat ensures Decimal(n) != "length" { assert IsDigit(Decimal(n)[0]); }
  }

  /** The values met on the way, each a property of the one before. */
  ghost predicate Trace(v: Value, parts: seq<string>, met: seq<Value>) {
    && |met| == |parts| + 1 && met[0] == v
    && forall i | 0 <= i < |parts| :: IsObject(met[i]) && met[i + 1] == Property(met[i], parts[i])
  }

  lemma {:induction false} WalkTraces(v: Value, parts: seq<string>) returns (met: seq<Value>)
    requires !Walk(v, parts).Undefined?
    ensures Trace(v, parts, met) && met[|parts|] == Walk(v, parts)
    decreases |parts|
  {
    if parts == [] {
      met := [v];
    } else {
      var rest := WalkTraces(Property(v, parts[0]), parts[1..]);
      met := [v] + rest;
      forall i | 0 <= i < |parts| ensures IsObject(met[i]) && met[i + 1] == Property(met[i], parts[i]) {
        if i > 0 { assert met[i] == rest[i - 1] && parts[i] == parts[1..][i - 1]; }
      }
    }
  }

  lemma {:induction false} TraceWalks(v: Value, parts: seq<string>, met: seq<Value>)
    requires Trace(v, parts, met)
    ensures Walk(v, parts) == met[|parts|]
    decreases |parts|
  {
    if parts != [] {
      var rest := met[1..];
      forall i | 0 <= i < |parts[1..]|
        ensures IsObject(rest[i]) && rest[i + 1] == Property(rest[i], parts[1..][i])
      {
        assert rest[i] == met[i + 1] && IsObject(met[i + 1]);
      }
      TraceWalks(Property(v, parts[0]), parts[1..], rest);
    }
  }

  /** Reading a path gives `r` just if the split path leads there property by property. */
  lemma ResolveIff(variables: Value, path: string, r: Value)
    requires !r.Undefined?
    ensures Resolve(variables, path) == r <==>
            exists met :: Trace(variables, Split(path, '.'), met) && met[|met| - 1] == r
  {
    var parts := Split(path, '.');
    if Resolve(variables, path) == r {
      var met := WalkTraces(variables, parts);
    }
    if met :| Trace(variables, parts, met) && met[|met| - 1] == r { TraceWalks(variables, parts, met); }
  }

  method ResolvePath(obj: Value, path: string) returns (current: Value)
    ensures current == Resolve(obj, path)
  {
    var parts := Split(path, '.');
    current := obj;
    var i := 0;
    while i < |parts|
      invariant 0 <= i <= |parts|
      invariant Walk(current, parts[i..]) == Walk(obj, parts)
    {
      assert parts[i..][0] == parts[i] && parts[i..][1..] == parts[i + 1..];
      if !IsObject(current) { return Undefined; }
      current := Property(current, parts[i]);
      i := i + 1;
    }
  }

  method PathExists(obj: Option<Value>, dottedPath: string) returns (found: bool)
    ensures found <==> obj.Some? && Reaches(obj.value, Split(dottedPath, '.'))
  {
    if obj.None? { return false; }
    var parts := Split(dottedPath, '.');
    var cur := obj.value;
    var i := 0;
    while i < |parts|
      invariant 0 <= i <= |parts|
      invariant Reaches(cur, parts[i..]) <==> Reaches(obj.value, parts)
    {
      assert parts[i..][0] == parts[i] && parts[i..][1..] == parts[i + 1..];
      if !IsObject(cur) { return false; }
      cur := Property(cur, parts[i]);
      i := i + 1;
    }
    found := !cur.Undefined?;
  }

  // ---- Substitution ----

  /** A compiled value, or the COMPILATION_ERROR for an undefined placeholder. */
  datatype Outcome = Compiled(v: Value) | UndefinedPlaceholder

  /** The replacement for one placeholder; `show` is JavaScript's String(). */
  function Replacement(variables: Value, show: Value -> string, path: string): Option<string> {
    var resolved := Resolve(variables, path);
    if resolved.Undefined? then None else Some(show(resolved))
  }

  function Lookup(variables: Value, show: Value -> string): string -> Option<string> {
    (path: string) => Replacement(variables, show, path)
  }

  function SubstituteString(s: string, variables: Value, show: Value -> string): Outcome {
    match Exact(s)
    case Some(path) =>
      var resolved := Resolve(variables, path);
      if resolved.Undefined? then UndefinedPlaceholder else Compiled(resolved)
    case None =>
      if Matches(s, 0) == [] then Compiled(Str(s))
      else
        match ReplaceAll(s, Lookup(variables, show))
        case Thrown => UndefinedPlaceholder
        case Text(text) => Compiled(Str(text))
  }

  ghost function Substitute(template: Value, variables: Value, show: Value -> string): Outcome {
    match template
    case Str(s) => SubstituteString(s, variables, show)
    case Arr(items) =>
      if forall i | 0 <= i < |items| :: Substitute(items[i], variables, show).Compiled?
      then Compiled(Arr(seq(|items|, i requires 0 <= i < |items| => Substitute(items[i], variables, show).v)))
      else UndefinedPlaceholder
    case Obj(fields) =>
      if forall k | k in fields :: Substitute(fields[k], variables, show).Compiled?
      then Compiled(Obj(map k | k in fields :: Substitute(fields[k], variables, show).v))
      else UndefinedPlaceholder
    case _ => Compiled(template)
  }

  ghost predicate HasPath(ms: seq<Match>, path: string) {
    exists m :: m in ms && m.path == path
  }

  function PathsFrom(s: string, from: nat): set<string>
    decreases |s| - from
  {
    match FirstMatch(s, from)
    case None => {}
    case Some(m) => {m.path} + PathsFrom(s, m.end)
  }

  lemma {:induction false} PathsFromAre(s: string, from: nat, path: string)
    ensures path in PathsFrom(s, from) <==> HasPath(Matches(s, from), path)
    decreases |s| - from
  {
    var m := FirstMatch(s, from);
    if m.Some? {
      var ms, rest := Matches(s, from), Matches(s, m.value.end);
      PathsFromAre(s, m.value.end, path);
      if HasPath(rest, path) {
        var q :| q in rest && q.path == path;
        assert q in ms;
      }
      if m.value.path == path { assert ms[0] in ms; }
    }
  }

  /** The placeholders of a template, as the checker's traversal collects them. */
  ghost predicate Mentions(node: Value, path: string) {
    match node
    case Str(s) => HasPath(Matches(s, 0), path)
    case Arr(items) => exists i :: 0 <= i < |items| && Mentions(items[i], path)
    case Obj(fields) => exists k :: k in fields && Mentions(fields[k], path)
    case _ => false
  }

  ghost predicate Satisfied(variables: Value, path: string) {
    Reaches(variables, Split(path, '.'))
  }

  lemma LookupIff(variables: Value, show: Value -> string, path: string)
    ensures Satisfied(variables, path) <==> Lookup(variables, show)(path).Some?
    ensures Satisfied(variables, path) <==> !Resolve(variables, path).Undefined?
  {
    ReachesIff(variables, Split(path, '.'));
  }

  lemma StringFailsIff(s: string, variables: Value, show: Value -> string)
    ensures SubstituteString(s, variables, show).UndefinedPlaceholder? <==>
            exists m :: m in Matches(s, 0) && !Satisfied(variables, m.path)
  {
    var ms := Matches(s, 0);
    forall m | m in ms ensures Satisfied(variables, m.path) <==> Lookup(variables, show)(m.path).Some? {
      LookupIff(variables, show, m.path);
    }
    if Exact(s).Some? {
      ExactIsOnlyMatch(s);
      LookupIff(variables, show, ms[0].path);
      assert ms[0] in ms;
    } else {
      MatchesChain(s, 0);
      SpliceThrowsIff(s, 0, ms, Lookup(variables, show));
    }
  }

  /** Checker equals compiler: for every template and every variables, substitution fails
      exactly when some collected placeholder does not exist for the checker. */
  lemma {:induction false} CheckerEqualsCompiler(template: Value, variables: Value, show: Value -> string)
    ensures Substitute(template, variables, show).UndefinedPlaceholder? <==>
            exists p :: Mentions(template, p) && !Satisfied(variables, p)
    decreases template
  {
    match template
    case Str(s) =>
      StringFailsIff(s, variables, show);
      if m :| m in Matches(s, 0) && !Satisfied(variables, m.path) { assert Mentions(template, m.path); }
    case Arr(items) =>
      forall i | 0 <= i < |items| { CheckerEqualsCompiler(items[i], variables, show); }
      if i :| 0 <= i < |items| && Substitute(items[i], variables, show).UndefinedPlaceholder? {
        var p :| Mentions(items[i], p) && !Satisfied(variables, p);
        assert Mentions(template, p);
      }
    case Obj(fields) =>
      forall k | k in fields { CheckerEqualsCompiler(fields[k], variables, show); }
      if k :| k in fields && Substitute(fields[k], variables, show).UndefinedPlaceholder? {
        var p :| Mentions(fields[k], p) && !Satisfied(variables, p);
        assert Mentions(template, p);
      }
    case _ =>
  }

  // ---- What is compiled, place by place ----

  datatype Place = Item(i: nat) | Key(k: string)

  /** What stands at a place inside a value. */
  function At(v: Value, place: seq<Place>): Option<Value>
    decreases |place|
  {
    if place == [] then Some(v)
    else match place[0]
      case Item(i) => if v.Arr? && i < |v.items| then At(v.items[i], place[1..]) else None
      case Key(k) => if v.Obj? && k in v.fields then At(v.fields[k], place[1..]) else None
  }

  /** At every place of the template, the compiled value has what is compiled from there. */
  lemma {:induction false} CompiledAt(template: Value, variables: Value, show: Value -> string, place: seq<Place>)
    requires Substitute(template, variables, show).Compiled? && At(template, place).Some?
    ensures Substitute(At(template, place).value, variables, show).Compiled?
    ensures At(Substitute(template, variables, show).v, place) ==
            Some(Substitute(At(template, place).value, variables, show).v)
    decreases |place|
  {
    if place != [] {
      match place[0]
      case Item(i) => CompiledAt(template.items[i], variables, show, place[1..]);
      case Key(k) => CompiledAt(template.fields[k], variables, show, place[1..]);
    }
  }

  /** Arrays keep their length and objects their keys; what is no string stays as it is. */
  lemma ShapeIsKept(template: Value, variables: Value, show: Value -> string)
    requires Substitute(template, variables, show).Compiled? && !template.Str?
    ensures var v := Substitute(template, variables, show).v;
      && (template.Arr? ==> v.Arr? && |v.items| == |template.items|)
      && (template.Obj? ==> v.Obj? && v.fields.Keys == template.fields.Keys)
      && (!template.Arr? && !template.Obj? ==> v == template)
  {
  }

  /** What a string compiles to. An exact placeholder gives the value its path reads, as it is;
      a string without placeholders gives itself; in any other every literal stays and every
      placeholder becomes its own value's text, moved by the ones before it. */
  lemma StringCompiles(s: string, variables: Value, show: Value -> string)
    requires SubstituteString(s, variables, show).Compiled?
    ensures forall path | IsPlaceholder(s, path) ::
      SubstituteString(s, variables, show).v == Resolve(variables, path) && !Resolve(variables, path).Undefined?
    ensures (forall i :: MatchAt(s, i).None?) ==> SubstituteString(s, variables, show).v == Str(s)
    ensures (forall path :: !IsPlaceholder(s, path)) ==>
      SubstituteString(s, variables, show).v.Str? &&
      Filled(s, variables, show, SubstituteString(s, variables, show).v.s)
  {
    var ms, f := Matches(s, 0), Lookup(variables, show);
    forall path ensures Exact(s) == Some(path) <==> IsPlaceholder(s, path) { ExactIff(s, path); }
    MatchesChain(s, 0);
    if Exact(s).None? {
      if ms == [] {
        assert s[0..] == s;
      } else {
        SpliceThrowsIff(s, 0, ms, f);
      }
      AllFilled(s, variables, show);
    }
    if forall i :: MatchAt(s, i).None? { assert FirstMatch(s, 0).None?; }
  }

  /** `text` is `s` with every match replaced by the text of the value that its path reads. */
  ghost predicate Filled(s: string, variables: Value, show: Value -> string, text: string) {
    var ms, f := Matches(s, 0), Lookup(variables, show);
    && AllReplaced(ms, f) && |text| == |s| + Growth(ms, f, |ms|)
    && forall k: nat | k <= |ms| :: StandsAt(s, 0, ms, f, k, text)
  }

  lemma AllFilled(s: string, variables: Value, show: Value -> string)
    requires AllReplaced(Matches(s, 0), Lookup(variables, show))
    ensures var r := ReplaceAll(s, Lookup(variables, show)); r.Text? && Filled(s, variables, show, r.text)
  {
    var ms, f := Matches(s, 0), Lookup(variables, show);
    MatchesChain(s, 0);
    SpliceIsText(s, 0, ms, f);
    forall k: nat | k <= |ms| ensures StandsAt(s, 0, ms, f, k, ReplaceAll(s, f).text) {
      SpliceAt(s, 0, ms, f, k);
    }
  }

  /** The text put in for a path is that of the value it reads. */
  lemma LookupShows(variables: Value, show: Value -> string, path: string)
    requires !Resolve(variables, path).Undefined?
    ensures Lookup(variables, show)(path) == Some(show(Resolve(variables, path)))
  {
  }

  lemma FieldsCompiled(template: Object, variables: Value, show: Value -> string, result: map<string, Value>)
    requires result.Keys == template.fields.Keys
    requires forall k | k in result :: Substitute(template.fields[k], variables, show) == Compiled(result[k])
    ensures Substitute(template, variables, show) == Compiled(Obj(result))
  {
    assert forall k | k in template.fields :: k in result;
    assert Substitute(template, variables, show).Compiled?;
    assert Substitute(template, variables, show).v.fields == result;
  }

  /** `substitute` with the regular expression it shares between all its calls. */
  class TemplateResolver {
    const placeholderRe: GlobalRegExp

    constructor ()
      ensures fresh(placeholderRe) && placeholderRe.lastIndex == 0
    {
      placeholderRe := new GlobalRegExp();
    }

    /** `lastIndex` is zero on every entry, the nested ones included, and on every exit,
        whether a value is returned or a placeholder was undefined. */
    method SubstituteAll(template: Value, variables: Value, show: Value -> string) returns (r: Outcome)
      requires placeholderRe.lastIndex == 0
      modifies placeholderRe
      ensures placeholderRe.lastIndex == 0
      ensures r == Substitute(template, variables, show)
      decreases template, 1
    {
      match template
      case Str(s) => r := SubstituteText(s, variables, show);
      case Arr(_) => r := SubstituteItems(template, variables, show);
      case Obj(_) => r := SubstituteFields(template, variables, show);
      case _ => r := Compiled(template);
    }

    method SubstituteItems(template: Value, variables: Value, show: Value -> string) returns (r: Outcome)
      requires template.Arr? && placeholderRe.lastIndex == 0
      modifies placeholderRe
      ensures placeholderRe.lastIndex == 0
      ensures r == Substitute(template, variables, show)
      decreases template, 0
    {
      var items := template.items;
      var result: seq<Value> := [];
      var i := 0;
      while i < |items|
        invariant 0 <= i == |result| <= |items| && placeholderRe.lastIndex == 0
        invariant forall j | 0 <= j < i :: Substitute(items[j], variables, show) == Compiled(result[j])
      {
        var item := SubstituteAll(items[i], variables, show);
        if item.UndefinedPlaceholder? {
          assert !Substitute(items[i], variables, show).Compiled?;
          return item;
        }
        result := result + [item.v];
        i := i + 1;
      }
      r := Compiled(Arr(result));
      assert Substitute(template, variables, show).Compiled?;
      assert Substitute(template, variables, show).v.items == result;
    }

    method SubstituteFields(template: Value, variables: Value, show: Value -> string) returns (r: Outcome)
      requires template.Obj? && placeholderRe.lastIndex == 0
      modifies placeholderRe
      ensures placeholderRe.lastIndex == 0
      ensures r == Substitute(template, variables, show)
      decreases template, 0
    {
      var fields := template.fields;
      var result: map<string, Value> := map[];
      var todo := fields.Keys;
      while todo != {}
        invariant todo <= fields.Keys && result.Keys == fields.Keys - todo && placeholderRe.lastIndex == 0
        invariant forall k | k in result :: Substitute(fields[k], variables, show) == Compiled(result[k])
      {
        var key :| key in todo;
        var value := SubstituteAll(fields[key], variables, show);
        if value.UndefinedPlaceholder? {
          assert !Substitute(fields[key], variables, show).Compiled?;
          return value;
        }
        result := result[key := value.v];
        todo := todo - {key};
      }
      FieldsCompiled(template, variables, show, result);
      r := Compiled(Obj(result));
    }

    method SubstituteText(s: string, variables: Value, show: Value -> string) returns (r: Outcome)
      requires placeholderRe.lastIndex == 0
      modifies placeholderRe
      ensures placeholderRe.lastIndex == 0
      ensures r == SubstituteString(s, variables, show)
    {
      var exact := Exact(s);
      if exact.Some? {
        var resolved := ResolvePath(variables, exact.value);
        if resolved.Undefined? { return UndefinedPlaceholder; }
        return Compiled(resolved);
      }
      var found := placeholderRe.Test(s);
      if found {
        placeholderRe.lastIndex := 0;
        var replaced := placeholderRe.Replace(s, Lookup(variables, show));
        if replaced.Thrown? { return UndefinedPlaceholder; }
        return Compiled(Str(replaced.text));
      }
      return Compiled(Str(s));
    }
  }

  /** `collectPlaceholders`, with its own shared regular expression and one shared Set. */
  class PlaceholderCollector {
    const re: GlobalRegExp
    var paths: set<string>

    constructor ()
      ensures paths == {} && fresh(re)
    {
      re := new GlobalRegExp();
      paths := {};
    }

    /** Whatever `lastIndex` was before, exactly the template's placeholders are added. */
    method Collect(node: Value)
      modifies this, re
      ensures forall p :: p in paths <==> p in old(paths) || Mentions(node, p)
      decreases node
    {
      match node
      case Str(s) =>
        CollectText(s);
        forall p ensures p in PathsFrom(s, 0) <==> Mentions(node, p) {
          PathsFromAre(s, 0, p);
        }
      case Arr(items) =>
        var i := 0;
        while i < |items|
          invariant 0 <= i <= |items|
          invariant forall p :: p in paths <==>
                      p in old(paths) || exists j :: 0 <= j < i && Mentions(items[j], p)
        {
          Collect(items[i]);
          i := i + 1;
        }
      case Obj(fields) =>
        var todo := fields.Keys;
        while todo != {}
          invariant todo <= fields.Keys
          invariant forall p :: p in paths <==>
                      p in old(paths) || exists k :: k in fields && k !in todo && Mentions(fields[k], p)
        {
          var key :| key in todo;
          Collect(fields[key]);
          todo := todo - {key};
        }
      case _ =>
    }

    method CollectText(s: string)
      modifies this, re
      ensures paths == old(paths) + PathsFrom(s, 0)
    {
      re.lastIndex := 0;
      var m := re.Exec(s);
      while m.Some?
        invariant m.Some? ==> re.lastIndex == m.value.end <= |s|
        invariant old(paths) + PathsFrom(s, 0) ==
                  paths + if m.Some? then {m.value.path} + PathsFrom(s, m.value.end) else {}
        decreases if m.Some? then 1 + |s| - m.value.end else 0
      {
        paths := paths + {m.value.path};
        m := re.Exec(s);
      }
    }
  }

  // ---- Inputs with defaults ----

  /** `extractSchemaDefaults`: the declared default of every top-level property. */
  function SchemaDefaults(schema: Object): Object {
    var properties := Field(schema, "properties");
    if !properties.Obj? then Obj(map[])
    else Obj(map k | k in properties.fields && properties.fields[k].Obj? && "default" in properties.fields[k].fields
                   :: properties.fields[k].fields["default"])
  }

  function Spread(base: Object, over: Object): Object {
    Obj(base.fields + over.fields)
  }

  /** The variables that the compiler substitutes with. */
  function SubstitutionVars(schema: Object, template: Option<Object>, inputs: Object): Value {
    var defaults := if template.Some? then Spread(SchemaDefaults(schema), template.value) else SchemaDefaults(schema);
    Obj(map["inputs" := Spread(defaults, inputs)])
  }

  /** Which layer an input comes from: the request's value if it sets one, else the template's,
      else the default of the schema's property. */
  lemma InputComesFrom(schema: Object, template: Option<Object>, inputs: Object, k: string)
    ensures var vars := SubstitutionVars(schema, template, inputs);
      var properties := if "properties" in schema.fields then schema.fields["properties"] else Undefined;
      && vars.Obj? && vars.fields.Keys == {"inputs"} && vars.fields["inputs"].Obj?
      && Field(vars.fields["inputs"], k) ==
         if k in inputs.fields then inputs.fields[k]
         else if template.Some? && k in template.value.fields then template.value.fields[k]
         else if properties.Obj? && k in properties.fields && properties.fields[k].Obj?
                 && "default" in properties.fields[k].fields
         then properties.fields[k].fields["default"]
         else Undefined
  {
  }

  lemma {:induction false} SplitPlain(k: string)
    requires '.' !in k
    ensures Split(k, '.') == [k]
  {
    if k != "" {
      SplitPlain(k[1..]);
      assert k == [k[0]] + k[1..];
    }
  }

  lemma {:induction false} SplitPrefixed(a: string, k: string)
    requires '.' !in a && '.' !in k
    ensures Split(a + "." + k, '.') == [a, k]
  {
    var s := a + "." + k;
    if a == "" {
      assert s[1..] == k;
      SplitPlain(k);
    } else {
      assert s[0] == a[0] && s[1..] == a[1..] + "." + k;
      SplitPrefixed(a[1..], k);
      assert a == [a[0]] + a[1..];
    }
  }

  /** The layer that has the last word on an input sets it to `undefined`. */
  predicate Unset(template: Option<Object>, inputs: Object, k: string) {
    if k in inputs.fields then inputs.fields[k].Undefined?
    else template.Some? && k in template.value.fields && template.value.fields[k].Undefined?
  }

  /** A one-level `inputs.k` placeholder with a schema default is undefined exactly when a
      template or a request sets `k` to `undefined` explicitly, which no JSON request can. */
  lemma DefaultedInputResolves(schema: Object, template: Option<Object>, inputs: Object, k: string)
    requires '.' !in k && !Field(SchemaDefaults(schema), k).Undefined?
    ensures Satisfied(SubstitutionVars(schema, template, inputs), "inputs." + k) <==> !Unset(template, inputs, k)
  {
    var vars := SubstitutionVars(schema, template, inputs);
    assert "inputs." + k == "inputs" + "." + k;
    SplitPrefixed("inputs", k);
    var inner := vars.fields["inputs"];
    assert ["inputs", k][1..] == [k] && [k][1..] == [];
    assert Reaches(vars, ["inputs", k]) <==> Reaches(inner, [k]);
    assert Reaches(inner, [k]) <==> !Property(inner, k).Undefined?;
  }

  /** So a template whose placeholders all have schema defaults compiles for every request. */
  lemma DefaultedTemplateCompiles(t: Value, schema: Object, template: Option<Object>, inputs: Object,
                                  show: Value -> string)
    requires forall p | Mentions(t, p) ::
               exists k :: p == "inputs." + k && '.' !in k
                           && !Field(SchemaDefaults(schema), k).Undefined? && !Unset(template, inputs, k)
    ensures Substitute(t, SubstitutionVars(schema, template, inputs), show).Compiled?
  {
    var vars := SubstitutionVars(schema, template, inputs);
    CheckerEqualsCompiler(t, vars, show);
    forall p | Mentions(t, p) ensures Satisfied(vars, p) {
      var k :| p == "inputs." + k && '.' !in k
               && !Field(SchemaDefaults(schema), k).Undefined? && !Unset(template, inputs, k);
      DefaultedInputResolves(schema, template, inputs, k);
    }
  }
}
