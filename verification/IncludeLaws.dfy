/** Include expansion is unrestricted inlining that notices when it would never end, and what
    it notices are the cycles of the include graph. */
module IncludeLaws {
  import opened Wrappers
  import opened Sequences
  import opened Includes

  // ---- Without a cycle error, the visited set makes no difference ----

  predicate NoCycleIn<T>(r: Result<T>) {
    r != Err(Cycle)
  }

  /** Inlining that ends gives the loader's result. */
  predicate Agrees<T(==)>(u: Unfolded<T>, r: Result<T>) {
    u.Done? ==> u.result == r
  }

  lemma {:induction false} FileAgrees(k: Packs, file: Path, visited: set<Path>, depth: nat)
    requires file in k.files && NoCycleIn(LoadFile(k, file, visited))
    ensures Agrees(UnfoldFile(k, file, depth), LoadFile(k, file, visited))
    ensures depth >= |k.files.Keys - visited| ==> UnfoldFile(k, file, depth).Done?
    decreases k.files.Keys - visited, 1, Blank, 1
  {
    if ExtName(file) != ".json" {
      YamlAgrees(k, file, visited, depth);
    }
  }

  lemma {:induction false} YamlAgrees(k: Packs, file: Path, visited: set<Path>, depth: nat)
    requires file in k.files && NoCycleIn(ParseYaml(k, file, visited))
    ensures Agrees(UnfoldYaml(k, file, depth), ParseYaml(k, file, visited))
    ensures depth >= |k.files.Keys - visited| ==> UnfoldYaml(k, file, depth).Done?
    decreases k.files.Keys - visited, 1, Blank, 0
  {
    if k.files[file].asYaml.Parsed? {
      DocAgrees(k, file, visited, depth, k.files[file].asYaml.doc);
    }
  }

  lemma {:induction false} DocAgrees(k: Packs, file: Path, visited: set<Path>, depth: nat, doc: Doc)
    requires NoCycleIn(Expand(k, file, visited, doc))
    ensures Agrees(Unfold(k, file, depth, doc), Expand(k, file, visited, doc))
    ensures depth >= |k.files.Keys - visited| ==> Unfold(k, file, depth, doc).Done?
    decreases k.files.Keys - visited, 0, doc, 1
  {
    match doc
    case Include(arg) => TargetAgrees(k, file, visited, depth, arg);
    case List(items) => AllAgree(k, file, visited, depth, items);
    case Mapping(_, values) => AllAgree(k, file, visited, depth, values);
    case _ =>
  }

  lemma {:induction false} TargetAgrees(k: Packs, file: Path, visited: set<Path>, depth: nat, arg: string)
    requires NoCycleIn(Expand(k, file, visited, Include(arg)))
    ensures Agrees(Unfold(k, file, depth, Include(arg)), Expand(k, file, visited, Include(arg)))
    ensures depth >= |k.files.Keys - visited| ==> Unfold(k, file, depth, Include(arg)).Done?
    decreases k.files.Keys - visited, 0, Include(arg), 0
  {
    var t := Target(k, file, arg);
    if t.Ok? {
      var left := k.files.Keys - visited;
      assert k.files.Keys - (visited + {t.value}) == left - {t.value} && t.value in left;
      if depth > 0 { FileAgrees(k, t.value, visited + {t.value}, depth - 1); }
    }
  }

  lemma {:induction false} AllAgree(k: Packs, file: Path, visited: set<Path>, depth: nat, docs: seq<Doc>)
    requires NoCycleIn(ExpandAll(k, file, visited, docs))
    ensures Agrees(UnfoldAll(k, file, depth, docs), ExpandAll(k, file, visited, docs))
    ensures depth >= |k.files.Keys - visited| ==> UnfoldAll(k, file, depth, docs).Done?
    decreases k.files.Keys - visited, 0, docs, 0
  {
    if docs != [] {
      DocAgrees(k, file, visited, depth, docs[0]);
      if Expand(k, file, visited, docs[0]).Ok? { AllAgree(k, file, visited, depth, docs[1..]); }
    }
  }

  // ---- A cycle error means that inlining never ends ----

  ghost function Visited(chain: seq<Path>): set<Path> {
    set p | p in chain
  }

  /** Files being loaded, each after the ones before it were visited, each reporting a cycle. */
  ghost predicate CyclicChain(k: Packs, chain: seq<Path>)
    decreases |chain|
  {
    chain == [] ||
    (&& Last(chain) in k.files && ExtName(Last(chain)) != ".json"
     && ParseYaml(k, Last(chain), Visited(chain)) == Err(Cycle)
     && CyclicChain(k, Earlier(chain)))
  }

  lemma {:induction false} CyclicPrefix(k: Packs, chain: seq<Path>, n: nat)
    requires CyclicChain(k, chain) && n <= |chain|
    ensures CyclicChain(k, chain[..n])
    decreases |chain|
  {
    if n == |chain| {
      assert chain[..n] == chain;
    } else {
      CyclicPrefix(k, Earlier(chain), n);
      assert Earlier(chain)[..n] == chain[..n];
    }
  }

  lemma VisitedAppend(chain: seq<Path>, t: Path)
    ensures Visited(chain + [t]) == Visited(chain) + {t}
  {
  }

  lemma CyclicExtend(k: Packs, chain: seq<Path>, t: Path)
    requires CyclicChain(k, chain) && t in k.files
    requires LoadFile(k, t, Visited(chain) + {t}) == Err(Cycle)
    ensures CyclicChain(k, chain + [t])
  {
    VisitedAppend(chain, t);
    assert Earlier(chain + [t]) == chain;
  }

  ghost predicate GoesDeeper(k: Packs, file: Path, depth: nat) {
    file in k.files && UnfoldFile(k, file, depth) == Deeper
  }

  lemma {:induction false} CycleGoesDeeper(k: Packs, chain: seq<Path>, depth: nat)
    requires chain != [] && CyclicChain(k, chain)
    ensures GoesDeeper(k, Last(chain), depth)
    decreases depth, 2, Blank, 0
  {
    DocGoesDeeper(k, Last(chain), chain, depth, k.files[Last(chain)].asYaml.doc);
  }

  lemma {:induction false} DocGoesDeeper(k: Packs, file: Path, chain: seq<Path>, depth: nat, doc: Doc)
    requires CyclicChain(k, chain) && Expand(k, file, Visited(chain), doc) == Err(Cycle)
    ensures Unfold(k, file, depth, doc) == Deeper
    decreases depth, 1, doc, 1
  {
    match doc
    case Include(arg) => TargetGoesDeeper(k, file, chain, depth, arg);
    case List(items) => AllGoDeeper(k, file, chain, depth, items);
    case Mapping(_, values) => AllGoDeeper(k, file, chain, depth, values);
  }

  /** Where a cycle error of an include tag comes from. */
  lemma CyclicTarget(k: Packs, file: Path, visited: set<Path>, arg: string) returns (t: Path)
    requires Expand(k, file, visited, Include(arg)) == Err(Cycle)
    ensures Target(k, file, arg) == Ok(t) && t in k.files
    ensures t !in visited ==> LoadFile(k, t, visited + {t}) == Err(Cycle) && ExtName(t) != ".json"
  {
    t := Target(k, file, arg).value;
  }

  /** A chain that ends in the included file: a prefix if it was visited, one longer if not. */
  lemma ChainTo(k: Packs, chain: seq<Path>, t: Path) returns (c: seq<Path>)
    requires CyclicChain(k, chain) && t in k.files
    requires t !in Visited(chain) ==> LoadFile(k, t, Visited(chain) + {t}) == Err(Cycle)
    ensures c != [] && CyclicChain(k, c) && Last(c) == t
  {
    if t in Visited(chain) {
      var i :| 0 <= i < |chain| && chain[i] == t;
      c := chain[..i + 1];
      CyclicPrefix(k, chain, i + 1);
    } else {
      c := chain + [t];
      CyclicExtend(k, chain, t);
    }
  }

  lemma {:induction false} TargetGoesDeeper(k: Packs, file: Path, chain: seq<Path>, depth: nat, arg: string)
    requires CyclicChain(k, chain) && Expand(k, file, Visited(chain), Include(arg)) == Err(Cycle)
    ensures Unfold(k, file, depth, Include(arg)) == Deeper
    decreases depth, 0, Blank, 0
  {
    var c := NextChain(k, file, chain, arg);
    if depth > 0 {
      var t, d := Last(c), depth - 1;
      CycleGoesDeeper(k, c, d);
      DeeperTarget(k, file, d, arg, t);
    } else {
      DepthZero(k, file, arg);
    }
  }

  lemma NextChain(k: Packs, file: Path, chain: seq<Path>, arg: string) returns (c: seq<Path>)
    requires CyclicChain(k, chain) && Expand(k, file, Visited(chain), Include(arg)) == Err(Cycle)
    ensures c != [] && CyclicChain(k, c) && Target(k, file, arg) == Ok(Last(c))
  {
    var t := CyclicTarget(k, file, Visited(chain), arg);
    c := ChainTo(k, chain, t);
  }

  lemma DepthZero(k: Packs, file: Path, arg: string)
    requires Target(k, file, arg).Ok?
    ensures Unfold(k, file, 0, Include(arg)) == Deeper
  {
  }

  lemma DeeperTarget(k: Packs, file: Path, depth: nat, arg: string, t: Path)
    requires Target(k, file, arg) == Ok(t) && GoesDeeper(k, t, depth)
    ensures Unfold(k, file, depth + 1, Include(arg)) == Deeper
  {
  }

  lemma {:induction false} AllGoDeeper(k: Packs, file: Path, chain: seq<Path>, depth: nat, docs: seq<Doc>)
    requires CyclicChain(k, chain) && ExpandAll(k, file, Visited(chain), docs) == Err(Cycle)
    ensures UnfoldAll(k, file, depth, docs) == Deeper
    decreases depth, 1, docs, 0
  {
    if Expand(k, file, Visited(chain), docs[0]) == Err(Cycle) {
      DocGoesDeeper(k, file, chain, depth, docs[0]);
    } else {
      DocAgrees(k, file, Visited(chain), depth, docs[0]);
      AllGoDeeper(k, file, chain, depth, docs[1..]);
    }
  }

  // ---- The loader against inlining ----

  lemma Fewer(all: set<Path>, some: set<Path>)
    ensures |all - some| <= |all|
  {
    assert all == (all - some) + (all * some);
    assert |all| == |all - some| + |all * some|;
  }

  ghost predicate NeverEnds(k: Packs, file: Path)
    requires file in k.files
  {
    forall d: nat :: UnfoldYaml(k, file, d) == Deeper
  }

  ghost predicate EndsAs(k: Packs, file: Path, r: Result<Doc>)
    requires file in k.files
  {
    forall d: nat | d >= |k.files| :: UnfoldYaml(k, file, d) == Done(r)
  }

  /** What an entry counts as visited when it is met again: a `.json` entry, which is YAML
      only at the top, would have to count as not visited. */
  function Seen(file: Path): set<Path> {
    if ExtName(file) == ".json" then {} else {file}
  }

  lemma EndsUnlessCycle(k: Packs, file: Path, visited: set<Path>)
    requires file in k.files && ParseYaml(k, file, visited) != Err(Cycle)
    ensures EndsAs(k, file, ParseYaml(k, file, visited))
    ensures forall d: nat | UnfoldYaml(k, file, d).Done? ::
              UnfoldYaml(k, file, d).result == ParseYaml(k, file, visited)
  {
    forall d: nat { YamlAgrees(k, file, visited, d); }
    forall d: nat | d >= |k.files| ensures UnfoldYaml(k, file, d) == Done(ParseYaml(k, file, visited)) {
      YamlAgrees(k, file, visited, d);
      Fewer(k.files.Keys, visited);
    }
  }

  /** Started with what it counts as visited, every entry's expansion is inlining. */
  lemma ExpansionIsInlining(k: Packs, file: Path)
    requires file in k.files
    ensures ParseYaml(k, file, Seen(file)) == Err(Cycle) <==> NeverEnds(k, file)
  {
    var r := ParseYaml(k, file, Seen(file));
    if r == Err(Cycle) {
      var chain := if ExtName(file) == ".json" then [] else [file];
      assert Visited(chain) == Seen(file);
      assert Earlier([file]) == [] && Last([file]) == file;
      forall d: nat ensures UnfoldYaml(k, file, d) == Deeper {
        DocGoesDeeper(k, file, chain, d, k.files[file].asYaml.doc);
      }
    } else {
      EndsUnlessCycle(k, file, Seen(file));
      assert UnfoldYaml(k, file, |k.files|) == Done(r);
    }
  }

  /** Include expansion, with its visited set, is unrestricted inlining. For every entry a
      result without a cycle error, value or other error, is inlining's own, shared fragments
      included; and for an entry not named `.json` a cycle is reported exactly when inlining
      never ends. */
  lemma LoadIsInlining(k: Packs, file: Path)
    requires file in k.files
    ensures var r := LoadYamlWithIncludes(k, file);
      && (r != Err(Cycle) ==> EndsAs(k, file, r))
      && (r != Err(Cycle) || ExtName(file) != ".json" ==>
            forall d: nat | UnfoldYaml(k, file, d).Done? :: UnfoldYaml(k, file, d).result == r)
      && (ExtName(file) != ".json" ==> (r == Err(Cycle) <==> NeverEnds(k, file)))
  {
    if LoadYamlWithIncludes(k, file) != Err(Cycle) { EndsUnlessCycle(k, file, {file}); }
    ExpansionIsInlining(k, file);
  }

  // ---- What is loaded, place by place ----

  /** How a file is read: by its extension, an empty one as blank. */
  lemma LoadFileReads(k: Packs, file: Path, visited: set<Path>)
    requires file in k.files
    ensures var f := k.files[file]; var r := LoadFile(k, file, visited);
      && (ExtName(file) == ".json" ==>
            r == if f.asJson.Empty? then Ok(Blank) else if f.asJson.Invalid? then Err(InvalidJson)
                 else Ok(f.asJson.doc))
      && (ExtName(file) != ".json" ==> r == ParseYaml(k, file, visited))
    ensures var f := k.files[file]; var r := ParseYaml(k, file, visited);
      r == if f.asYaml.Empty? then Ok(Blank) else if f.asYaml.Invalid? then Err(InvalidYaml)
           else Expand(k, file, visited, f.asYaml.doc)
  {
  }

  /** What stands at a place inside a document. */
  function At(doc: Doc, place: seq<nat>): Option<Doc>
    decreases |place|
  {
    if place == [] then Some(doc)
    else
      match doc
      case List(items) => if place[0] < |items| then At(items[place[0]], place[1..]) else None
      case Mapping(_, values) => if place[0] < |values| then At(values[place[0]], place[1..]) else None
      case _ => None
  }

  lemma {:induction false} ExpandedItem(k: Packs, file: Path, visited: set<Path>, docs: seq<Doc>, i: nat)
    requires ExpandAll(k, file, visited, docs).Ok? && i < |docs|
    ensures |ExpandAll(k, file, visited, docs).value| == |docs|
    ensures Expand(k, file, visited, docs[i]) == Ok(ExpandAll(k, file, visited, docs).value[i])
    decreases |docs|
  {
    var rest := docs[1..];
    if i > 0 {
      ExpandedItem(k, file, visited, rest, i - 1);
    } else if rest != [] {
      ExpandedItem(k, file, visited, rest, 0);
    }
  }

  /** At every place of a document, the loaded one has what is loaded from there: an include's
      file for an include, and the document's own text everywhere else. */
  lemma {:induction false} ExpandedAt(k: Packs, file: Path, visited: set<Path>, doc: Doc, place: seq<nat>)
    requires Expand(k, file, visited, doc).Ok? && At(doc, place).Some?
    ensures Expand(k, file, visited, At(doc, place).value).Ok?
    ensures At(Expand(k, file, visited, doc).value, place) == Some(Expand(k, file, visited, At(doc, place).value).value)
    decreases |place|
  {
    if place != [] {
      match doc
      case List(items) =>
        ExpandedItem(k, file, visited, items, place[0]);
        ExpandedAt(k, file, visited, items[place[0]], place[1..]);
      case Mapping(_, values) =>
        ExpandedItem(k, file, visited, values, place[0]);
        ExpandedAt(k, file, visited, values[place[0]], place[1..]);
    }
  }

  /** What a single node loads as: scalars as they are, lists and mappings with as many members
      and the same keys, an include as the file it leads to. */
  lemma NodeLoads(k: Packs, file: Path, visited: set<Path>, doc: Doc)
    requires Expand(k, file, visited, doc).Ok?
    ensures var v := Expand(k, file, visited, doc).value;
      match doc
      case Include(arg) =>
        var t := Target(k, file, arg);
        t.Ok? && t.value !in visited && LoadFile(k, t.value, visited + {t.value}) == Ok(v)
      case List(items) => v.List? && |v.items| == |items|
      case Mapping(keys, values) => v.Mapping? && v.keys == keys && |v.values| == |values|
      case _ => v == doc
  {
    match doc
    case List(items) => if items != [] { ExpandedItem(k, file, visited, items, 0); }
    case Mapping(_, values) => if values != [] { ExpandedItem(k, file, visited, values, 0); }
    case _ =>
  }

  // ---- The include graph ----

  ghost predicate Tags(doc: Doc, arg: string) {
    match doc
    case Include(a) => a == arg
    case List(items) => exists i :: 0 <= i < |items| && Tags(items[i], arg)
    case Mapping(_, values) => exists i :: 0 <= i < |values| && Tags(values[i], arg)
    case _ => false
  }

  /** `file`, read as YAML, includes `target`. */
  ghost predicate Cites(k: Packs, file: Path, target: Path) {
    && file in k.files && k.files[file].asYaml.Parsed?
    && exists arg :: Tags(k.files[file].asYaml.doc, arg) && Target(k, file, arg) == Ok(target)
  }

  /** An included file is read as YAML, and so can include others, unless it is named `.json`. */
  ghost predicate Edge(k: Packs, file: Path, target: Path) {
    ExtName(file) != ".json" && Cites(k, file, target)
  }

  /** A walk of includes from an entry, which is read as YAML whatever its name. */
  ghost predicate IsWalk(k: Packs, w: seq<Path>) {
    && w != []
    && (|w| >= 2 ==> Cites(k, w[0], w[1]))
    && forall i | 1 <= i < |w| - 1 :: Edge(k, w[i], w[i + 1])
  }

  /** The last file of the walk is read as YAML. */
  predicate AsYaml(w: seq<Path>)
    requires w != []
  {
    |w| == 1 || ExtName(Last(w)) != ".json"
  }

  lemma WalkExtend(k: Packs, w: seq<Path>, t: Path)
    requires IsWalk(k, w) && AsYaml(w) && Cites(k, Last(w), t)
    ensures IsWalk(k, w + [t]) && (w + [t])[0] == w[0] && Last(w + [t]) == t
  {
    var r := w + [t];
    forall i | 1 <= i < |r| - 1 ensures Edge(k, r[i], r[i + 1]) {
      if i < |w| - 1 { assert Edge(k, w[i], w[i + 1]); } else { assert r[i] == Last(w) && r[i + 1] == t; }
    }
  }

  lemma WalkPrefix(k: Packs, w: seq<Path>, n: nat)
    requires IsWalk(k, w) && 0 < n <= |w|
    ensures IsWalk(k, w[..n])
  {
    var r := w[..n];
    forall i | 1 <= i < |r| - 1 ensures Edge(k, r[i], r[i + 1]) {
      assert Edge(k, w[i], w[i + 1]);
    }
  }

  lemma CitedStaysInside(k: Packs, file: Path, target: Path)
    requires Cites(k, file, target) && ValidPath(file) && ValidPath(k.root)
    ensures k.root <= target && ValidPath(target)
  {
    var arg :| Tags(k.files[file].asYaml.doc, arg) && Target(k, file, arg) == Ok(target);
    TargetStaysInside(k, file, arg);
  }

  lemma WalkCites(k: Packs, w: seq<Path>, i: nat)
    requires IsWalk(k, w) && i + 1 < |w|
    ensures Cites(k, w[i], w[i + 1])
  {
    assert i >= 1 ==> Edge(k, w[i], w[i + 1]);
  }

  /** However deep the includes go, and wherever the entry lies, every file they reach is
      inside packsRoot. */
  lemma {:induction false} WalksStayInside(k: Packs, w: seq<Path>, i: nat)
    requires IsWalk(k, w) && ValidPath(w[0]) && ValidPath(k.root) && i < |w|
    ensures ValidPath(w[i]) && (i > 0 ==> k.root <= w[i])
  {
    if i > 0 {
      WalksStayInside(k, w, i - 1);
      WalkCites(k, w, i - 1);
      CitedStaysInside(k, w[i - 1], w[i]);
    }
  }

  /** Some file occurs twice in the walk from position `m` on. */
  ghost predicate Repeats(w: seq<Path>, m: nat) {
    exists i, j :: m <= i < j < |w| && w[i] == w[j]
  }

  lemma {:induction false} ExpandedTags(k: Packs, file: Path, visited: set<Path>, doc: Doc, arg: string)
    requires Expand(k, file, visited, doc).Ok? && Tags(doc, arg)
    ensures var t := Target(k, file, arg);
            t.Ok? && t.value in k.files && t.value !in visited && LoadFile(k, t.value, visited + {t.value}).Ok?
    decreases doc, 1
  {
    match doc
    case Include(_) =>
    case List(items) => ExpandedAllTags(k, file, visited, items, arg);
    case Mapping(_, values) => ExpandedAllTags(k, file, visited, values, arg);
  }

  lemma {:induction false} ExpandedAllTags(k: Packs, file: Path, visited: set<Path>, docs: seq<Doc>, arg: string)
    requires ExpandAll(k, file, visited, docs).Ok?
    requires exists i :: 0 <= i < |docs| && Tags(docs[i], arg)
    ensures var t := Target(k, file, arg);
            t.Ok? && t.value in k.files && t.value !in visited && LoadFile(k, t.value, visited + {t.value}).Ok?
    decreases docs, 0
  {
    var i :| 0 <= i < |docs| && Tags(docs[i], arg);
    if i == 0 {
      ExpandedTags(k, file, visited, docs[0], arg);
    } else {
      assert docs[1..][i - 1] == docs[i];
      ExpandedAllTags(k, file, visited, docs[1..], arg);
    }
  }

  lemma WalkTail(k: Packs, w: seq<Path>)
    requires IsWalk(k, w) && |w| >= 2
    ensures IsWalk(k, w[1..])
  {
    var r := w[1..];
    if |r| >= 2 { assert Edge(k, w[1], w[2]); }
    forall i | 1 <= i < |r| - 1 ensures Edge(k, r[i], r[i + 1]) {
      assert Edge(k, w[i + 1], w[i + 2]);
    }
  }

  /** From a file that loads, no walk returns to a visited file or repeats one. */
  lemma {:induction false} LoadedWalksAreSimple(k: Packs, file: Path, visited: set<Path>, w: seq<Path>)
    requires file in k.files && ParseYaml(k, file, visited).Ok?
    requires IsWalk(k, w) && w[0] == file
    ensures forall i | 0 < i < |w| :: w[i] !in visited
    ensures !Repeats(w, 1) && (file in visited ==> !Repeats(w, 0))
    decreases |w|
  {
    if |w| >= 2 {
      var t, rest := w[1], w[1..];
      var arg :| Tags(k.files[file].asYaml.doc, arg) && Target(k, file, arg) == Ok(t);
      ExpandedTags(k, file, visited, k.files[file].asYaml.doc, arg);
      if |w| >= 3 {
        assert Edge(k, t, w[2]);
        WalkTail(k, w);
        LoadedWalksAreSimple(k, t, visited + {t}, rest);
        forall i | 1 < i < |w| ensures w[i] !in visited && w[i] != t {
          assert w[i] == rest[i - 1];
        }
        forall i, j | 1 <= i < j < |w| ensures w[i] != w[j] {
          assert w[i] == rest[i - 1] && w[j] == rest[j - 1];
        }
      }
    }
  }

  lemma ComesBack(w: seq<Path>, m: nat, t: Path)
    requires m <= |w| && t in Visited(w[m..])
    ensures Repeats(w + [t], m)
  {
    var i :| 0 <= i < |w[m..]| && w[m..][i] == t;
    assert (w + [t])[m + i] == (w + [t])[|w|];
  }

  lemma VisitedFrom(w: seq<Path>, m: nat, t: Path)
    requires m <= |w|
    ensures Visited((w + [t])[m..]) == Visited(w[m..]) + {t}
  {
    assert (w + [t])[m..] == w[m..] + [t];
  }

  /** The walk that a cycle error reports; the files from position `m` on were visited. */
  lemma {:induction false} CycleWalk(k: Packs, w: seq<Path>, m: nat) returns (r: seq<Path>)
    requires IsWalk(k, w) && AsYaml(w) && m <= |w| && Last(w) in k.files
    requires ParseYaml(k, Last(w), Visited(w[m..])) == Err(Cycle)
    ensures IsWalk(k, r) && r[0] == w[0] && Repeats(r, m)
    decreases k.files.Keys - Visited(w[m..]), 1, Blank, 0
  {
    r := CycleWalkDoc(k, w, m, k.files[Last(w)].asYaml.doc);
  }

  lemma {:induction false} CycleWalkDoc(k: Packs, w: seq<Path>, m: nat, doc: Doc) returns (r: seq<Path>)
    requires IsWalk(k, w) && AsYaml(w) && m <= |w| && Last(w) in k.files && k.files[Last(w)].asYaml.Parsed?
    requires forall arg :: Tags(doc, arg) ==> Tags(k.files[Last(w)].asYaml.doc, arg)
    requires Expand(k, Last(w), Visited(w[m..]), doc) == Err(Cycle)
    ensures IsWalk(k, r) && r[0] == w[0] && Repeats(r, m)
    decreases k.files.Keys - Visited(w[m..]), 0, doc, 1
  {
    match doc
    case Include(arg) => r := CycleWalkTarget(k, w, m, arg);
    case List(items) => r := CycleWalkAll(k, w, m, items);
    case Mapping(_, values) => r := CycleWalkAll(k, w, m, values);
  }

  lemma {:induction false} CycleWalkTarget(k: Packs, w: seq<Path>, m: nat, arg: string) returns (r: seq<Path>)
    requires IsWalk(k, w) && AsYaml(w) && m <= |w| && Last(w) in k.files && k.files[Last(w)].asYaml.Parsed?
    requires Tags(Include(arg), arg) ==> Tags(k.files[Last(w)].asYaml.doc, arg)
    requires Expand(k, Last(w), Visited(w[m..]), Include(arg)) == Err(Cycle)
    ensures IsWalk(k, r) && r[0] == w[0] && Repeats(r, m)
    decreases k.files.Keys - Visited(w[m..]), 0, Include(arg), 0
  {
    var t := CyclicTarget(k, Last(w), Visited(w[m..]), arg);
    r := w + [t];
    WalkExtend(k, w, t);
    if t in Visited(w[m..]) {
      ComesBack(w, m, t);
    } else {
      VisitedFrom(w, m, t);
      assert t in k.files.Keys - Visited(w[m..]);
      r := CycleWalk(k, r, m);
    }
  }

  lemma {:induction false} CycleWalkAll(k: Packs, w: seq<Path>, m: nat, docs: seq<Doc>) returns (r: seq<Path>)
    requires IsWalk(k, w) && AsYaml(w) && m <= |w| && Last(w) in k.files && k.files[Last(w)].asYaml.Parsed?
    requires forall i, arg | 0 <= i < |docs| :: Tags(docs[i], arg) ==> Tags(k.files[Last(w)].asYaml.doc, arg)
    requires ExpandAll(k, Last(w), Visited(w[m..]), docs) == Err(Cycle)
    ensures IsWalk(k, r) && r[0] == w[0] && Repeats(r, m)
    decreases k.files.Keys - Visited(w[m..]), 0, docs, 0
  {
    if Expand(k, Last(w), Visited(w[m..]), docs[0]) == Err(Cycle) {
      r := CycleWalkDoc(k, w, m, docs[0]);
    } else {
      assert forall i | 0 <= i < |docs[1..]| :: docs[1..][i] == docs[i + 1];
      r := CycleWalkAll(k, w, m, docs[1..]);
    }
  }

  // ---- When every reachable include resolves ----

  /** The last file of the walk parses as it is read, and its includes have targets. */
  ghost predicate Resolves(k: Packs, w: seq<Path>)
    requires w != []
  {
    var file := Last(w);
    && file in k.files
    && (if AsYaml(w) then
          && !k.files[file].asYaml.Invalid?
          && (k.files[file].asYaml.Parsed? ==>
                forall arg | Tags(k.files[file].asYaml.doc, arg) :: Target(k, file, arg).Ok?)
        else !k.files[file].asJson.Invalid?)
  }

  ghost predicate ReachableResolve(k: Packs, file: Path) {
    forall w | IsWalk(k, w) && w[0] == file :: Resolves(k, w)
  }

  ghost predicate OkOrCycle<T(!new)>(r: Result<T>) {
    r.Ok? || r == Err(Cycle)
  }

  lemma {:induction false} OnlyCyclesFail(k: Packs, w: seq<Path>, m: nat, doc: Doc)
    requires IsWalk(k, w) && AsYaml(w) && m <= |w| && ReachableResolve(k, w[0])
    requires Last(w) in k.files && k.files[Last(w)].asYaml.Parsed?
    requires forall arg :: Tags(doc, arg) ==> Tags(k.files[Last(w)].asYaml.doc, arg)
    ensures OkOrCycle(Expand(k, Last(w), Visited(w[m..]), doc))
    decreases k.files.Keys - Visited(w[m..]), 1, doc, 1
  {
    assert Resolves(k, w);
    match doc
    case Include(arg) =>
      assert Tags(doc, arg);
      var t := Target(k, Last(w), arg).value;
      if t !in Visited(w[m..]) { OnlyCyclesFailTarget(k, w, m, t); }
    case List(items) => OnlyCyclesFailAll(k, w, m, items);
    case Mapping(_, values) => OnlyCyclesFailAll(k, w, m, values);
    case _ =>
  }

  lemma {:induction false} OnlyCyclesFailTarget(k: Packs, w: seq<Path>, m: nat, t: Path)
    requires IsWalk(k, w) && AsYaml(w) && m <= |w| && ReachableResolve(k, w[0]) && Cites(k, Last(w), t)
    requires t in k.files && t !in Visited(w[m..])
    ensures OkOrCycle(LoadFile(k, t, Visited(w[m..]) + {t}))
    decreases k.files.Keys - Visited(w[m..]), 0, Blank, 0
  {
    var r := w + [t];
    WalkExtend(k, w, t);
    assert Resolves(k, r);
    VisitedFrom(w, m, t);
    assert t in k.files.Keys - Visited(w[m..]);
    if ExtName(t) != ".json" && k.files[t].asYaml.Parsed? {
      OnlyCyclesFail(k, r, m, k.files[t].asYaml.doc);
    }
  }

  lemma {:induction false} OnlyCyclesFailAll(k: Packs, w: seq<Path>, m: nat, docs: seq<Doc>)
    requires IsWalk(k, w) && AsYaml(w) && m <= |w| && ReachableResolve(k, w[0])
    requires Last(w) in k.files && k.files[Last(w)].asYaml.Parsed?
    requires forall i, arg | 0 <= i < |docs| :: Tags(docs[i], arg) ==> Tags(k.files[Last(w)].asYaml.doc, arg)
    ensures OkOrCycle(ExpandAll(k, Last(w), Visited(w[m..]), docs))
    decreases k.files.Keys - Visited(w[m..]), 1, docs, 0
  {
    if docs != [] {
      OnlyCyclesFail(k, w, m, docs[0]);
      assert forall i | 0 <= i < |docs[1..]| :: docs[1..][i] == docs[i + 1];
      OnlyCyclesFailAll(k, w, m, docs[1..]);
    }
  }

  ghost predicate WalkFrom(k: Packs, file: Path, w: seq<Path>) {
    IsWalk(k, w) && w[0] == file
  }

  /** Expansion fails exactly on a walk that repeats a file, counting the entry as visited
      (`m` is 0) or not (`m` is 1). */
  lemma ExpansionFailsIff(k: Packs, file: Path, m: nat)
    requires file in k.files && ReachableResolve(k, file) && m <= 1
    ensures var r := ParseYaml(k, file, Visited([file][m..]));
      OkOrCycle(r) && (r.Err? <==> exists w :: WalkFrom(k, file, w) && Repeats(w, m))
  {
    var w := [file];
    var visited := Visited(w[m..]);
    assert IsWalk(k, w) && Last(w) == file;
    assert Resolves(k, w);
    if k.files[file].asYaml.Parsed? { OnlyCyclesFail(k, w, m, k.files[file].asYaml.doc); }
    if ParseYaml(k, file, visited).Err? {
      var r := CycleWalk(k, w, m);
      assert WalkFrom(k, file, r);
    } else {
      forall v | WalkFrom(k, file, v) ensures !Repeats(v, m) {
        LoadedWalksAreSimple(k, file, visited, v);
        if m == 0 { assert file == w[m..][0]; }
      }
    }
  }

  // ---- Main results on the graph ----

  /** If everything reachable resolves, loading fails exactly when the reachable include
      graph has a cycle: some walk of includes from the entry comes back to a file. */
  lemma FailsExactlyOnCycles(k: Packs, file: Path)
    requires file in k.files && ReachableResolve(k, file)
    ensures LoadYamlWithIncludes(k, file).Err? <==> exists w :: WalkFrom(k, file, w) && Repeats(w, 0)
    ensures OkOrCycle(LoadYamlWithIncludes(k, file))
  {
    assert [file][0..] == [file] && Visited([file]) == {file};
    ExpansionFailsIff(k, file, 0);
  }

  /** And inlining never ends exactly when a walk comes back to a file that is read as YAML
      each time: the entry does not count if it is named `.json`. */
  lemma NeverEndsExactlyOnCycles(k: Packs, file: Path)
    requires file in k.files && ReachableResolve(k, file)
    ensures NeverEnds(k, file) <==>
            exists w :: WalkFrom(k, file, w) && Repeats(w, if ExtName(file) == ".json" then 1 else 0)
  {
    var m := if ExtName(file) == ".json" then 1 else 0;
    assert Visited([file][m..]) == Seen(file);
    ExpansionIsInlining(k, file);
    ExpansionFailsIff(k, file, m);
  }

  /** Loading does what inlining does: a cycle error if it never ends, else its result. */
  ghost predicate Inlines(k: Packs, file: Path)
    requires file in k.files
  {
    var r := LoadYamlWithIncludes(k, file);
    if r == Err(Cycle) then NeverEnds(k, file) else EndsAs(k, file, r)
  }

  ghost predicate Returns(w: seq<Path>) {
    |w| >= 2 && Last(w) == w[0]
  }

  ghost predicate RepeatsOther(w: seq<Path>, file: Path) {
    exists i, j :: 0 <= i < j < |w| && w[i] == w[j] && w[i] != file
  }

  lemma RepeatsAfterEntry(k: Packs, file: Path, w: seq<Path>)
    requires ExtName(file) == ".json" && WalkFrom(k, file, w)
    ensures Repeats(w, 1) <==> RepeatsOther(w, file)
  {
    if Repeats(w, 1) {
      var i, j :| 1 <= i < j < |w| && w[i] == w[j];
      assert Edge(k, w[i], w[i + 1]);
    }
  }

  lemma ReturningPart(k: Packs, file: Path, w: seq<Path>) returns (r: seq<Path>)
    requires WalkFrom(k, file, w) && Repeats(w, 0) && !RepeatsOther(w, file)
    ensures WalkFrom(k, file, r) && Returns(r)
  {
    var i, j :| 0 <= i < j < |w| && w[i] == w[j];
    WalkPrefix(k, w, j + 1);
    r := w[..j + 1];
    assert w[i] == file && Last(r) == w[j] && r[0] == w[0];
  }

  lemma ReturnRepeats(w: seq<Path>)
    requires Returns(w)
    ensures Repeats(w, 0)
  {
    assert w[0] == w[|w| - 1];
  }

  /** The exception, for a `.json` entry: it is parsed as YAML at the top but read as JSON when
      included. If everything reachable resolves, loading differs from inlining exactly when
      a walk of includes returns to the entry and none repeats any other file. */
  lemma JsonEntryDiffersIff(k: Packs, file: Path)
    requires file in k.files && ExtName(file) == ".json" && ReachableResolve(k, file)
    ensures !Inlines(k, file) <==>
            (exists w :: WalkFrom(k, file, w) && Returns(w)) &&
            (forall w | WalkFrom(k, file, w) :: !RepeatsOther(w, file))
  {
    LoadIsInlining(k, file);
    FailsExactlyOnCycles(k, file);
    NeverEndsExactlyOnCycles(k, file);
    forall w | WalkFrom(k, file, w) ensures Repeats(w, 1) <==> RepeatsOther(w, file) {
      RepeatsAfterEntry(k, file, w);
    }
    forall w | WalkFrom(k, file, w) && Returns(w) ensures Repeats(w, 0) { ReturnRepeats(w); }
    if w :| WalkFrom(k, file, w) && Repeats(w, 0) && !RepeatsOther(w, file) {
      var r := ReturningPart(k, file, w);
    }
  }

  lemma SelfIncludeEnds(k: Packs, file: Path, arg: string)
    requires file in k.files && ExtName(file) == ".json"
    requires k.files[file].asYaml == Parsed(Include(arg)) && Target(k, file, arg) == Ok(file)
    ensures UnfoldYaml(k, file, 1).Done? && UnfoldYaml(k, file, 1) != Done(Err(Cycle))
  {
  }

  lemma SelfIncludeIsCycle(k: Packs, file: Path, arg: string)
    requires file in k.files && k.files[file].asYaml == Parsed(Include(arg)) && Target(k, file, arg) == Ok(file)
    ensures LoadYamlWithIncludes(k, file) == Err(Cycle)
  {
    assert Expand(k, file, {file}, Include(arg)) == Err(Cycle);
  }

  /** An instance: a `.json` entry whose document is one include of itself. */
  lemma JsonEntryIsDifferent(k: Packs, file: Path, arg: string)
    requires file in k.files && ExtName(file) == ".json"
    requires k.files[file].asYaml == Parsed(Include(arg)) && Target(k, file, arg) == Ok(file)
    ensures LoadYamlWithIncludes(k, file) == Err(Cycle) && !Inlines(k, file)
    ensures UnfoldYaml(k, file, 1).Done? && UnfoldYaml(k, file, 1) != Done(Err(Cycle))
    ensures WalkFrom(k, file, [file, file]) && Returns([file, file])
  {
    SelfIncludeIsCycle(k, file, arg);
    SelfIncludeEnds(k, file, arg);
    assert UnfoldYaml(k, file, 1) != Deeper;
    assert Tags(Include(arg), arg);
  }
}
