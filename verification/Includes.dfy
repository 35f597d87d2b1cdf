/** `!include` expansion (src/registry/include-resolver.ts) over a finite set of files, and the
    unrestricted inlining it is measured against. */
module Includes {
  import opened Sequences

  // ---- Paths ----

  /** An absolute normalised path: its segments below the file-system root. */
  type Path = seq<string>

  const SEPARATOR := '/'

  predicate ValidSegment(s: string) {
    s != "" && SEPARATOR !in s
  }

  ghost predicate ValidPath(p: Path) {
    forall i | 0 <= i < |p| :: ValidSegment(p[i])
  }

  /** The path as a string, without the leading slash of the root alone. */
  function Join(p: Path): string {
    if p == [] then "" else [SEPARATOR] + p[0] + Join(p[1..])
  }

  function Render(p: Path): string {
    if p == [] then [SEPARATOR] else Join(p)
  }

  predicate EndsWith(s: string, c: char) {
    s != "" && s[|s| - 1] == c
  }

  /** The boundary string of `resolveIncludePath`. */
  function Boundary(root: string): string {
    if EndsWith(root, SEPARATOR) then root else root + [SEPARATOR]
  }

  /** The test that lets an include stay inside `packsRoot`, on strings as in the source. */
  predicate InsideRoot(resolved: string, root: string) {
    resolved == root || Boundary(root) <= resolved
  }

  lemma JoinHead(s: string, rest: string, t: string, rest2: string)
    requires ValidSegment(s) && ValidSegment(t)
    requires rest != "" && rest[0] == SEPARATOR
    requires rest2 == "" || rest2[0] == SEPARATOR
    ensures s + rest <= t + rest2 <==> s == t && rest <= rest2
  {
    if s + rest <= t + rest2 { HeadsAgree(s, rest, t, rest2); }
  }

  lemma HeadsAgree(s: string, rest: string, t: string, rest2: string)
    requires ValidSegment(s) && ValidSegment(t)
    requires rest != "" && rest[0] == SEPARATOR
    requires rest2 == "" || rest2[0] == SEPARATOR
    requires s + rest <= t + rest2
    ensures s == t && rest <= rest2
  {
    var a, b := s + rest, t + rest2;
    assert forall i | 0 <= i < |a| :: a[i] == b[i];
    FirstSeparator(s, rest);
    FirstSeparator(t, rest2);
    assert a[|s|] == SEPARATOR && !(|s| < |t|);
    assert !(|t| < |s|);
    assert forall i | 0 <= i < |s| :: s[i] == a[i] && t[i] == b[i];
    assert rest == a[|s|..] && rest2 == b[|s|..];
  }

  lemma FirstSeparator(s: string, rest: string)
    requires ValidSegment(s) && (rest == "" || rest[0] == SEPARATOR)
    ensures forall i | 0 <= i < |s| :: (s + rest)[i] != SEPARATOR
    ensures rest != "" ==> (s + rest)[|s|] == SEPARATOR
  {
    assert forall i | 0 <= i < |s| :: s[i] in s;
  }

  lemma JoinStarts(p: Path)
    ensures p == [] <==> Join(p) == ""
    ensures p != [] ==> Join(p)[0] == SEPARATOR
  {
  }

  /** `root/` is a string prefix of a path exactly when `root`'s segments are a proper
      prefix of its segments: `/packs` does not contain `/packs-other`. */
  lemma {:induction false} JoinPrefixIff(root: Path, p: Path)
    requires ValidPath(root) && ValidPath(p)
    ensures Join(root) + [SEPARATOR] <= Join(p) <==> root < p
    decreases |root|
  {
    if root == [] {
      JoinStarts(p);
    } else if p == [] {
      JoinStarts(root);
    } else {
      var r, q := root[1..], p[1..];
      assert ValidPath(r) && ValidPath(q);
      JoinPrefixIff(r, q);
      JoinStarts(r);
      JoinStarts(q);
      JoinSteps(root, p);
      JoinHead(root[0], Join(r) + [SEPARATOR], p[0], Join(q));
      PathPrefix(root, p);
    }
  }

  lemma JoinStep(p: Path, x: string)
    requires p != []
    ensures Join(p) + x == [SEPARATOR] + (p[0] + (Join(p[1..]) + x))
  {
  }

  lemma JoinSteps(root: Path, p: Path)
    requires root != [] && p != []
    ensures Join(root) + [SEPARATOR] <= Join(p) <==>
            root[0] + (Join(root[1..]) + [SEPARATOR]) <= p[0] + Join(p[1..])
  {
    JoinStep(root, [SEPARATOR]);
    JoinStep(p, "");
    assert Join(p) + "" == Join(p) && Join(p[1..]) + "" == Join(p[1..]);
    PrefixCancels([SEPARATOR], root[0] + (Join(root[1..]) + [SEPARATOR]), p[0] + Join(p[1..]));
  }

  lemma PathPrefix(root: Path, p: Path)
    requires root != [] && p != []
    ensures root < p <==> root[0] == p[0] && root[1..] < p[1..]
  {
    assert root == [root[0]] + root[1..] && p == [p[0]] + p[1..];
  }

  lemma {:induction false} JoinEnds(p: Path)
    requires ValidPath(p) && p != []
    ensures !EndsWith(Join(p), SEPARATOR)
  {
    if |p| == 1 {
      assert Join(p[1..]) == "";
      assert p[0][|p[0]| - 1] in p[0];
    } else {
      JoinEnds(p[1..]);
      JoinStarts(p[1..]);
    }
  }

  lemma {:induction false} JoinInjective(a: Path, b: Path)
    requires ValidPath(a) && ValidPath(b) && Join(a) == Join(b)
    ensures a == b
  {
    JoinStarts(a);
    JoinStarts(b);
    if a != [] {
      JoinPrefixIff(a, b + ["x"]);
      JoinAppend(b, "x");
      JoinPrefixIff(b, a + ["x"]);
      JoinAppend(a, "x");
      assert Join(a) + [SEPARATOR] <= Join(b + ["x"]);
      assert a < b + ["x"] && b < a + ["x"];
    }
  }

  lemma {:induction false} JoinAppend(p: Path, s: string)
    ensures Join(p + [s]) == Join(p) + [SEPARATOR] + s
  {
    if p == [] {
      assert [s][1..] == [];
    } else {
      JoinAppend(p[1..], s);
      assert (p + [s])[1..] == p[1..] + [s];
    }
  }

  /** The string boundary test is "packsRoot itself or a path properly below it". */
  lemma InsideRootIff(p: Path, root: Path)
    requires ValidPath(p) && ValidPath(root)
    ensures InsideRoot(Render(p), Render(root)) <==> root <= p
  {
    JoinStarts(p);
    JoinStarts(root);
    JoinPrefixIff(root, p);
    if root == [] {
      assert Boundary(Render(root)) == [SEPARATOR] && [SEPARATOR] <= Render(p);
    } else {
      JoinEnds(root);
      assert Boundary(Render(root)) == Join(root) + [SEPARATOR];
      if p != [] && Render(p) == Render(root) { JoinInjective(p, root); }
      assert root <= p <==> root == p || root < p;
    }
  }

  // ---- Resolving ----

  /** Normalisation: `.` and empty segments vanish, `..` goes up, never above the root. */
  function Apply(dir: Path, parts: seq<string>): Path
    decreases |parts|
  {
    if parts == [] then dir
    else if parts[0] == "" || parts[0] == "." then Apply(dir, parts[1..])
    else if parts[0] == ".." then Apply(if dir == [] then [] else dir[..|dir| - 1], parts[1..])
    else Apply(dir + [parts[0]], parts[1..])
  }

  /** `path.resolve(path.dirname(file), arg)`. */
  function ResolveFrom(file: Path, arg: string): Path {
    var dir := if file == [] then [] else file[..|file| - 1];
    Apply(if arg != "" && arg[0] == SEPARATOR then [] else dir, Split(arg, SEPARATOR))
  }

  lemma {:induction false} ApplyValid(dir: Path, parts: seq<string>)
    requires ValidPath(dir) && forall i | 0 <= i < |parts| :: SEPARATOR !in parts[i]
    ensures ValidPath(Apply(dir, parts))
    decreases |parts|
  {
    if parts != [] {
      if parts[0] == ".." { ApplyValid(if dir == [] then [] else dir[..|dir| - 1], parts[1..]); }
      else if parts[0] == "" || parts[0] == "." { ApplyValid(dir, parts[1..]); }
      else { ApplyValid(dir + [parts[0]], parts[1..]); }
    }
  }

  // ---- Where an include leads ----

  /** A segment that is a name, not a step. */
  predicate IsName(s: string) {
    ValidSegment(s) && s != "." && s != ".."
  }

  predicate Names(q: seq<string>) {
    forall i | 0 <= i < |q| :: IsName(q[i])
  }

  lemma {:induction false} ApplyConcat(dir: Path, a: seq<string>, b: seq<string>)
    ensures Apply(dir, a + b) == Apply(Apply(dir, a), b)
    decreases |a|
  {
    if a == [] {
      assert a + b == b;
    } else {
      assert (a + b)[0] == a[0] && (a + b)[1..] == a[1..] + b;
      var next :=
        if a[0] == "" || a[0] == "." then dir
        else if a[0] == ".." then if dir == [] then [] else dir[..|dir| - 1]
        else dir + [a[0]];
      ApplyConcat(next, a[1..], b);
    }
  }

  lemma {:induction false} ApplyNames(dir: Path, q: seq<string>)
    requires Names(q)
    ensures Apply(dir, q) == dir + q
    decreases |q|
  {
    if q == [] {
      assert dir + q == dir;
    } else {
      ApplyNames(dir + [q[0]], q[1..]);
      assert q == [q[0]] + q[1..];
      assert dir + q == (dir + [q[0]]) + q[1..];
    }
  }

  lemma {:induction false} SplitNames(q: seq<string>)
    requires Names(q) && q != []
    ensures Split(JoinWith(q, SEPARATOR), SEPARATOR) == q
  {
    SplitWhole(q[0], SEPARATOR);
    if |q| > 1 {
      SplitNames(q[1..]);
      SplitAppend(q[0], JoinWith(q[1..], SEPARATOR), SEPARATOR);
      assert q == [q[0]] + q[1..];
    } else {
      assert q == [q[0]];
    }
  }

  lemma ApplySplitNames(dir: Path, q: seq<string>)
    requires Names(q)
    ensures Apply(dir, Split(JoinWith(q, SEPARATOR), SEPARATOR)) == dir + q
  {
    if q == [] {
      assert Split("", SEPARATOR) == [""] && [""][1..] == [];
      assert dir + q == dir;
    } else {
      SplitNames(q);
      ApplyNames(dir, q);
    }
  }

  /** `../` so many times. */
  function Ups(n: nat): string {
    if n == 0 then "" else "../" + Ups(n - 1)
  }

  /** The directory so many levels up, and no higher than the root. */
  function Climb(dir: Path, n: nat): Path {
    if n > |dir| then [] else dir[..|dir| - n]
  }

  lemma {:induction false} ApplyUps(dir: Path, n: nat, rest: string)
    ensures Apply(dir, Split(Ups(n) + rest, SEPARATOR)) == Apply(Climb(dir, n), Split(rest, SEPARATOR))
    decreases n
  {
    if n == 0 {
      assert Ups(n) + rest == rest && Climb(dir, n) == dir;
    } else {
      var above := if dir == [] then [] else dir[..|dir| - 1];
      var m := n - 1;
      var more := Ups(m) + rest;
      var parts := Split(more, SEPARATOR);
      assert Ups(n) + rest == ".." + [SEPARATOR] + more;
      SplitAppend("..", more, SEPARATOR);
      SplitWhole("..", SEPARATOR);
      assert ([".."] + parts)[0] == ".." && ([".."] + parts)[1..] == parts;
      ApplyUps(above, m, rest);
      assert Climb(above, n - 1) == Climb(dir, n);
    }
  }

  lemma NamesStart(q: seq<string>)
    requires Names(q)
    ensures JoinWith(q, SEPARATOR) == "" || JoinWith(q, SEPARATOR)[0] != SEPARATOR
  {
    if q != [] { assert q[0][0] in q[0]; }
  }

  /** A relative argument: up so many levels from the including file's directory, never above
      the root, and down by the names. */
  lemma RelativeLeads(dir: Path, name: string, n: nat, q: seq<string>)
    requires Names(q)
    ensures ResolveFrom(dir + [name], Ups(n) + JoinWith(q, SEPARATOR)) == Climb(dir, n) + q
  {
    var arg := Ups(n) + JoinWith(q, SEPARATOR);
    NamesStart(q);
    assert (dir + [name])[..|dir|] == dir;
    assert arg == "" || arg[0] != SEPARATOR;
    ApplyUps(dir, n, JoinWith(q, SEPARATOR));
    ApplySplitNames(Climb(dir, n), q);
  }

  /** An absolute argument leads to the path it renders, from every file. */
  lemma AbsoluteLeads(file: Path, p: Path)
    requires Names(p)
    ensures ResolveFrom(file, Render(p)) == p
  {
    RenderIs(p);
    var names := JoinWith(p, SEPARATOR);
    assert [SEPARATOR] + names == "" + [SEPARATOR] + names;
    SplitAppend("", names, SEPARATOR);
    assert Split("", SEPARATOR) == [""];
    assert ([""] + Split(names, SEPARATOR))[1..] == Split(names, SEPARATOR);
    ApplySplitNames([], p);
    assert [] + p == p;
  }

  lemma {:induction false} RenderIs(p: Path)
    ensures Render(p) == [SEPARATOR] + JoinWith(p, SEPARATOR)
  {
    if |p| == 1 {
      assert Join(p[1..]) == "";
    } else if p != [] {
      RenderIs(p[1..]);
    }
  }

  /** After a slash, `./` and a further slash change nothing. */
  lemma DotsVanish(file: Path, a: string, b: string)
    ensures ResolveFrom(file, a + "/" + ("./" + b)) == ResolveFrom(file, a + "/" + b)
    ensures ResolveFrom(file, a + "/" + ("/" + b)) == ResolveFrom(file, a + "/" + b)
  {
    var dir := if file == [] then [] else file[..|file| - 1];
    var from := if (a + "/")[0] == SEPARATOR then [] else dir;
    SkipPart(from, a, ".", b);
    SkipPart(from, a, "", b);
    assert "." + [SEPARATOR] + b == "./" + b && "" + [SEPARATOR] + b == "/" + b;
  }

  /** Nor does a leading `./`. */
  lemma LeadingDotVanishes(file: Path, b: string)
    requires b == "" || b[0] != SEPARATOR
    ensures ResolveFrom(file, "./" + b) == ResolveFrom(file, b)
  {
    SplitAppend(".", b, SEPARATOR);
    SplitWhole(".", SEPARATOR);
    assert "./" + b == "." + [SEPARATOR] + b;
    assert (["."] + Split(b, SEPARATOR))[1..] == Split(b, SEPARATOR);
  }

  lemma SkipPart(dir: Path, a: string, skipped: string, b: string)
    requires skipped == "" || skipped == "."
    ensures Apply(dir, Split(a + [SEPARATOR] + (skipped + [SEPARATOR] + b), SEPARATOR)) ==
            Apply(dir, Split(a + [SEPARATOR] + b, SEPARATOR))
  {
    var parts, more := Split(a, SEPARATOR), Split(b, SEPARATOR);
    SplitAppend(a, skipped + [SEPARATOR] + b, SEPARATOR);
    SplitAppend(skipped, b, SEPARATOR);
    SplitAppend(a, b, SEPARATOR);
    SplitWhole(skipped, SEPARATOR);
    assert ([skipped] + more)[1..] == more;
    ApplyConcat(dir, parts, [skipped] + more);
    ApplyConcat(dir, parts, more);
  }

  // ---- The extension ----

  function ToLower(s: string): string {
    seq(|s|, i requires 0 <= i < |s| => if 'A' <= s[i] <= 'Z' then s[i] - 'A' + 'a' else s[i])
  }

  /** The index of the last dot, or -1. */
  function LastDot(s: string): (i: int)
    ensures -1 <= i < |s|
  {
    if s == "" then -1
    else if s[|s| - 1] == '.' then |s| - 1
    else LastDot(s[..|s| - 1])
  }

  function ExtName(p: Path): string {
    if p == [] then ""
    else
      var name := p[|p| - 1];
      var dot := LastDot(name);
      if dot <= 0 then "" else ToLower(name[dot..])
  }

  lemma {:induction false} LastDotIs(s: string, stem: string, ext: string)
    requires s == stem + "." + ext && '.' !in ext
    ensures LastDot(s) == |stem|
    decreases |ext|
  {
    if ext != "" {
      assert s[|s| - 1] == ext[|ext| - 1] && ext[|ext| - 1] in ext;
      assert s[..|s| - 1] == stem + "." + ext[..|ext| - 1];
      LastDotIs(s[..|s| - 1], stem, ext[..|ext| - 1]);
    }
  }

  lemma {:induction false} NoDot(s: string)
    requires '.' !in s
    ensures LastDot(s) == -1
    decreases |s|
  {
    if s != "" {
      assert s[|s| - 1] in s;
      NoDot(s[..|s| - 1]);
    }
  }

  /** The extension is what follows the last dot, in lower case, if a name stands before it. */
  lemma ExtensionIs(dir: Path, stem: string, ext: string)
    requires stem != "" && '.' !in ext
    ensures ExtName(dir + [stem + "." + ext]) == "." + ToLower(ext)
    ensures ExtName(dir + ["." + ext]) == ""
    ensures ExtName(dir + [ext]) == ""
  {
    LastDotIs(stem + "." + ext, stem, ext);
    LastDotIs("." + ext, "", ext);
    NoDot(ext);
    var name := stem + "." + ext;
    assert name[|stem|..] == "." + ext;
    assert ToLower("." + ext) == "." + ToLower(ext);
  }

  /** Lower-casing moves the letters from `A` to `Z` and nothing else. */
  lemma ToLowerIs(s: string, i: nat)
    requires i < |s|
    ensures |ToLower(s)| == |s|
    ensures 'A' <= s[i] <= 'Z' ==> ToLower(s)[i] as int == s[i] as int + 32
    ensures !('A' <= s[i] <= 'Z') ==> ToLower(s)[i] == s[i]
  {
  }

  const SUPPORTED_EXTENSIONS := {".yaml", ".yml", ".json"}

  // ---- Files ----

  /** A parsed document: scalars (opaque), lists, mappings, and include tags. */
  datatype Doc =
    | Scalar(text: string)
    | Blank
    | List(items: seq<Doc>)
    | Mapping(keys: seq<string>, values: seq<Doc>)
    | Include(arg: string)

  /** A file's text as each parser sees it: empty, invalid, or a document. */
  datatype Parsed = Empty | Invalid | Parsed(doc: Doc)

  datatype File = File(asYaml: Parsed, asJson: Parsed)

  datatype Error =
    | EmptyArgument
    | EscapesRoot
    | UnsupportedExtension
    | NotFound
    | Cycle
    | InvalidYaml
    | InvalidJson

  datatype Result<+T> = Ok(value: T) | Err(error: Error)

  datatype Packs = Packs(root: Path, files: map<Path, File>)

  /** The checks of `resolveIncludePath` that do not depend on what was visited. */
  function Target(k: Packs, parent: Path, arg: string): Result<Path> {
    if arg == "" then Err(EmptyArgument)
    else
      var resolved := ResolveFrom(parent, arg);
      if !InsideRoot(Render(resolved), Render(k.root)) then Err(EscapesRoot)
      else if ExtName(resolved) !in SUPPORTED_EXTENSIONS then Err(UnsupportedExtension)
      else if resolved !in k.files then Err(NotFound)
      else Ok(resolved)
  }

  /** Exactly when an include has a target, and the first of its faults otherwise. */
  lemma TargetIff(k: Packs, parent: Path, arg: string)
    requires ValidPath(parent) && ValidPath(k.root)
    ensures var t := ResolveFrom(parent, arg); var supported := ExtName(t) in {".yaml", ".yml", ".json"};
      && (Target(k, parent, arg) == Ok(t) <==> arg != "" && k.root <= t && supported && t in k.files)
      && (Target(k, parent, arg) == Err(EmptyArgument) <==> arg == "")
      && (Target(k, parent, arg) == Err(EscapesRoot) <==> arg != "" && !(k.root <= t))
      && (Target(k, parent, arg) == Err(UnsupportedExtension) <==> arg != "" && k.root <= t && !supported)
      && (Target(k, parent, arg) == Err(NotFound) <==> arg != "" && k.root <= t && supported && t !in k.files)
  {
    var dir := if parent == [] then [] else parent[..|parent| - 1];
    ApplyValid(if arg != "" && arg[0] == SEPARATOR then [] else dir, Split(arg, SEPARATOR));
    InsideRootIff(ResolveFrom(parent, arg), k.root);
  }

  /** What the boundary test is for: an include never leads out of packsRoot. */
  lemma TargetStaysInside(k: Packs, parent: Path, arg: string)
    requires ValidPath(parent) && ValidPath(k.root) && Target(k, parent, arg).Ok?
    ensures k.root <= Target(k, parent, arg).value && ValidPath(Target(k, parent, arg).value)
  {
    var dir := if parent == [] then [] else parent[..|parent| - 1];
    ApplyValid(if arg != "" && arg[0] == SEPARATOR then [] else dir, Split(arg, SEPARATOR));
    InsideRootIff(ResolveFrom(parent, arg), k.root);
  }

  // ---- Expansion with the visited set ----

  /** `loadFile`: JSON files are read as they are, others are parsed as YAML. */
  function LoadFile(k: Packs, file: Path, visited: set<Path>): Result<Doc>
    requires file in k.files
    decreases k.files.Keys - visited, 1, Blank, 1
  {
    if ExtName(file) == ".json" then
      match k.files[file].asJson
      case Empty => Ok(Blank)
      case Invalid => Err(InvalidJson)
      case Parsed(doc) => Ok(doc)
    else ParseYaml(k, file, visited)
  }

  function ParseYaml(k: Packs, file: Path, visited: set<Path>): Result<Doc>
    requires file in k.files
    decreases k.files.Keys - visited, 1, Blank, 0
  {
    match k.files[file].asYaml
    case Empty => Ok(Blank)
    case Invalid => Err(InvalidYaml)
    case Parsed(doc) => Expand(k, file, visited, doc)
  }

  /** The constructed value of a node; includes are replaced as they are met. */
  function Expand(k: Packs, file: Path, visited: set<Path>, doc: Doc): Result<Doc>
    decreases k.files.Keys - visited, 0, doc, 1
  {
    match doc
    case Include(arg) =>
      (match Target(k, file, arg)
       case Err(e) => Err(e)
       case Ok(target) =>
         if target in visited then Err(Cycle)
         else
           assert target in k.files.Keys - visited;
           LoadFile(k, target, visited + {target}))
    case List(items) =>
      (match ExpandAll(k, file, visited, items)
       case Err(e) => Err(e)
       case Ok(done) => Ok(List(done)))
    case Mapping(keys, values) =>
      (match ExpandAll(k, file, visited, values)
       case Err(e) => Err(e)
       case Ok(done) => Ok(Mapping(keys, done)))
    case _ => Ok(doc)
  }

  function ExpandAll(k: Packs, file: Path, visited: set<Path>, docs: seq<Doc>): Result<seq<Doc>>
    decreases k.files.Keys - visited, 0, docs, 0
  {
    if docs == [] then Ok([])
    else
      match Expand(k, file, visited, docs[0])
      case Err(e) => Err(e)
      case Ok(first) =>
        match ExpandAll(k, file, visited, docs[1..])
        case Err(e) => Err(e)
        case Ok(rest) => Ok([first] + rest)
  }

  /** `loadYamlWithIncludes`: the entry file itself is always parsed as YAML. */
  function LoadYamlWithIncludes(k: Packs, file: Path): Result<Doc> {
    if file !in k.files then Err(NotFound) else ParseYaml(k, file, {file})
  }

  // ---- Unrestricted inlining ----

  /** Inlining without a visited set, to a given depth: no answer when the depth runs out. */
  datatype Unfolded<+T> = Deeper | Done(result: Result<T>)

  function UnfoldFile(k: Packs, file: Path, depth: nat): Unfolded<Doc>
    requires file in k.files
    decreases depth, 2, Blank, 1
  {
    if ExtName(file) == ".json" then
      match k.files[file].asJson
      case Empty => Done(Ok(Blank))
      case Invalid => Done(Err(InvalidJson))
      case Parsed(doc) => Done(Ok(doc))
    else UnfoldYaml(k, file, depth)
  }

  function UnfoldYaml(k: Packs, file: Path, depth: nat): Unfolded<Doc>
    requires file in k.files
    decreases depth, 2, Blank, 0
  {
    match k.files[file].asYaml
    case Empty => Done(Ok(Blank))
    case Invalid => Done(Err(InvalidYaml))
    case Parsed(doc) => Unfold(k, file, depth, doc)
  }

  function Unfold(k: Packs, file: Path, depth: nat, doc: Doc): Unfolded<Doc>
    decreases depth, 1, doc, 1
  {
    match doc
    case Include(arg) =>
      (match Target(k, file, arg)
       case Err(e) => Done(Err(e))
       case Ok(target) => if depth == 0 then Deeper else UnfoldFile(k, target, depth - 1))
    case List(items) =>
      (match UnfoldAll(k, file, depth, items)
       case Deeper => Deeper
       case Done(Err(e)) => Done(Err(e))
       case Done(Ok(done)) => Done(Ok(List(done))))
    case Mapping(keys, values) =>
      (match UnfoldAll(k, file, depth, values)
       case Deeper => Deeper
       case Done(Err(e)) => Done(Err(e))
       case Done(Ok(done)) => Done(Ok(Mapping(keys, done))))
    case _ => Done(Ok(doc))
  }

  function UnfoldAll(k: Packs, file: Path, depth: nat, docs: seq<Doc>): Unfolded<seq<Doc>>
    decreases depth, 1, docs, 0
  {
    if docs == [] then Done(Ok([]))
    else
      match Unfold(k, file, depth, docs[0])
      case Deeper => Deeper
      case Done(Err(e)) => Done(Err(e))
      case Done(Ok(first)) =>
        match UnfoldAll(k, file, depth, docs[1..])
        case Deeper => Deeper
        case Done(Err(e)) => Done(Err(e))
        case Done(Ok(rest)) => Done(Ok([first] + rest))
  }
}
