/** The placeholder pattern `{{ path }}` and the stateful global regular expression that the
    template resolver shares between calls (ECMA-262 2024, sections 22.2.7.2 and 22.2.6.11). */
module Placeholders {
  import opened Wrappers

  // ---- The pattern ----

  predicate IsSpace(c: char) {
    || '\t' <= c <= '\r' || c == ' ' || c == '\U{00A0}' || c == '\U{1680}'
    || '\U{2000}' <= c <= '\U{200A}' || c == '\U{2028}' || c == '\U{2029}' || c == '\U{202F}'
    || c == '\U{205F}' || c == '\U{3000}' || c == '\U{FEFF}'
  }

  predicate IsPathChar(c: char) {
    'a' <= c <= 'z' || 'A' <= c <= 'Z' || '0' <= c <= '9' || c == '_' || c == '.' || c == '-'
  }

  /** The two character classes, spelled out. */
  lemma PathChars(c: char)
    ensures IsPathChar(c) <==> c in {
      'A', 'B', 'C', 'D', 'E', 'F', 'G', 'H', 'I', 'J', 'K', 'L', 'M', 'N', 'O', 'P', 'Q', 'R', 'S', 'T',
      'U', 'V', 'W', 'X', 'Y', 'Z', 'a', 'b', 'c', 'd', 'e', 'f', 'g', 'h', 'i', 'j', 'k', 'l', 'm', 'n',
      'o', 'p', 'q', 'r', 's', 't', 'u', 'v', 'w', 'x', 'y', 'z',
      '0', '1', '2', '3', '4',
      '5', '6', '7', '8', '9', '_', '.', '-'}
  {
  }

  lemma SpaceChars(c: char)
    ensures IsSpace(c) <==> c as int in {9, 10, 11, 12, 13, 0x20, 0xA0, 0x1680, 0x2000, 0x2001, 0x2002, 0x2003,
      0x2004, 0x2005, 0x2006, 0x2007, 0x2008, 0x2009, 0x200A, 0x2028, 0x2029, 0x202F, 0x205F, 0x3000, 0xFEFF}
  {
  }

  ghost predicate AllOf(p: char -> bool, s: string) {
    forall i | 0 <= i < |s| :: p(s[i])
  }

  /** The regular expression read as a grammar: `t` is a placeholder for `path`. */
  ghost predicate IsPlaceholder(t: string, path: string) {
    exists before: string, after: string ::
      t == "{{" + before + path + after + "}}" && Parts(before, path, after)
  }

  ghost predicate Parts(before: string, path: string, after: string) {
    AllOf(IsSpace, before) && AllOf(IsSpace, after) && AllOf(IsPathChar, path) && path != ""
  }

  /** The end of the run of characters satisfying `p` from `i` on. */
  function RunEnd(p: char -> bool, s: string, i: nat): (j: nat)
    requires i <= |s|
    ensures i <= j <= |s|
    ensures forall k | i <= k < j :: p(s[k])
    ensures j < |s| ==> !p(s[j])
    decreases |s| - i
  {
    if i < |s| && p(s[i]) then RunEnd(p, s, i + 1) else i
  }

  datatype Match = Match(start: nat, end: nat, path: string)

  predicate At(s: string, i: nat, c: char) {
    i + 1 < |s| && s[i] == c && s[i + 1] == c
  }

  /** The greedy matcher: opening braces, spaces, path, spaces, closing braces. */
  function MatchAt(s: string, i: nat): (m: Option<Match>)
    ensures m.Some? ==> m.value.start == i && i + 5 <= m.value.end <= |s|
  {
    if !At(s, i, '{') then None
    else
      var a := RunEnd(IsSpace, s, i + 2);
      var b := RunEnd(IsPathChar, s, a);
      var c := RunEnd(IsSpace, s, b);
      if a < b && At(s, c, '}') then Some(Match(i, c + 2, s[a..b])) else None
  }

  lemma RunIs(p: char -> bool, s: string, i: nat)
    requires i <= |s|
    ensures AllOf(p, s[i..RunEnd(p, s, i)])
  {
  }

  lemma FivePieces(s: string, i: nat, a: nat, b: nat, c: nat)
    requires i + 2 <= a <= b <= c && c + 2 <= |s| && At(s, i, '{') && At(s, c, '}')
    ensures s[i..c + 2] == "{{" + s[i + 2..a] + s[a..b] + s[b..c] + "}}"
  {
    assert s[i..i + 2] == "{{" && s[c..c + 2] == "}}";
    assert s[i..c + 2] == s[i..i + 2] + s[i + 2..a] + s[a..b] + s[b..c] + s[c..c + 2];
  }

  lemma MatchFollowsGrammar(s: string, i: nat, j: nat, path: string)
    requires i <= j <= |s| && MatchAt(s, i) == Some(Match(i, j, path))
    ensures IsPlaceholder(s[i..j], path)
  {
    var a := RunEnd(IsSpace, s, i + 2);
    var b := RunEnd(IsPathChar, s, a);
    var c := RunEnd(IsSpace, s, b);
    RunIs(IsSpace, s, i + 2);
    RunIs(IsPathChar, s, a);
    RunIs(IsSpace, s, b);
    FivePieces(s, i, a, b, c);
    assert Parts(s[i + 2..a], path, s[b..c]);
  }

  /** Greed loses nothing: the matcher succeeds exactly on the substrings that the grammar
      admits, and no position starts two of them. */
  lemma MatchAtIff(s: string, i: nat, j: nat, path: string)
    requires i <= j <= |s|
    ensures MatchAt(s, i) == Some(Match(i, j, path)) <==> IsPlaceholder(s[i..j], path)
  {
    if MatchAt(s, i) == Some(Match(i, j, path)) {
      MatchFollowsGrammar(s, i, j, path);
    }
    if IsPlaceholder(s[i..j], path) {
      var before, after :| s[i..j] == "{{" + before + path + after + "}}" && Parts(before, path, after);
      GrammarMatches(s, i, j, before, path, after);
    }
  }

  lemma RunEndIs(p: char -> bool, s: string, i: nat, j: nat)
    requires i <= j <= |s| && AllOf(p, s[i..j]) && (j < |s| ==> !p(s[j]))
    ensures RunEnd(p, s, i) == j
  {
    forall k | i <= k < j ensures p(s[k]) {
      assert s[i..j][k - i] == s[k];
    }
  }

  lemma Pieces(t: string, before: string, path: string, after: string)
    requires t == "{{" + before + path + after + "}}"
    ensures var a := 2 + |before|; var b := a + |path|; var c := b + |after|;
            && |t| == c + 2 && t[..2] == "{{" && t[c..] == "}}"
            && t[2..a] == before && t[a..b] == path && t[b..c] == after
  {
  }

  lemma SliceOfSlice(s: string, i: nat, j: nat, a: nat, b: nat)
    requires a <= b && i + b <= j <= |s|
    ensures s[i..j][a..b] == s[i + a..i + b]
  {
    forall k | 0 <= k < b - a ensures s[i..j][a..b][k] == s[i + a..i + b][k] {
      assert s[i..j][a + k] == s[i + a + k];
    }
  }

  lemma MatchFromRuns(s: string, i: nat, a: nat, b: nat, c: nat)
    requires i + 2 <= a < b <= c && c + 2 <= |s| && s[i..i + 2] == "{{" && s[c..c + 2] == "}}"
    requires Parts(s[i + 2..a], s[a..b], s[b..c])
    ensures MatchAt(s, i) == Some(Match(i, c + 2, s[a..b]))
  {
    assert s[i..i + 2][0] == s[i] && s[i..i + 2][1] == s[i + 1];
    assert s[c..c + 2][0] == s[c] && s[c..c + 2][1] == s[c + 1];
    assert s[a..b][0] == s[a];
    RunEndIs(IsSpace, s, i + 2, a);
    if b < c { assert s[b..c][0] == s[b]; }
    RunEndIs(IsPathChar, s, a, b);
    RunEndIs(IsSpace, s, b, c);
  }

  lemma PiecesInPlace(s: string, i: nat, j: nat, before: string, path: string, after: string)
    requires i <= j <= |s| && s[i..j] == "{{" + before + path + after + "}}"
    ensures var a := i + 2 + |before|; var b := a + |path|; var c := b + |after|;
            && j == c + 2 && s[i..i + 2] == "{{" && s[c..c + 2] == "}}"
            && s[i + 2..a] == before && s[a..b] == path && s[b..c] == after
  {
    Pieces(s[i..j], before, path, after);
    var a := 2 + |before|;
    var b := a + |path|;
    var c := b + |after|;
    SliceOfSlice(s, i, j, 0, 2);
    SliceOfSlice(s, i, j, 2, a);
    SliceOfSlice(s, i, j, a, b);
    SliceOfSlice(s, i, j, b, c);
    SliceOfSlice(s, i, j, c, c + 2);
  }

  lemma GrammarMatches(s: string, i: nat, j: nat, before: string, path: string, after: string)
    requires i <= j <= |s| && Parts(before, path, after)
    requires s[i..j] == "{{" + before + path + after + "}}"
    ensures MatchAt(s, i) == Some(Match(i, j, path))
  {
    PiecesInPlace(s, i, j, before, path, after);
    var a := i + 2 + |before|;
    MatchFromRuns(s, i, a, a + |path|, a + |path| + |after|);
  }

  // ---- All matches, left to right ----

  function FirstMatch(s: string, from: nat): (m: Option<Match>)
    ensures m.Some? ==> from <= m.value.start && MatchAt(s, m.value.start) == m
    ensures m.Some? ==> forall i | from <= i < m.value.start :: MatchAt(s, i).None?
    ensures m.None? ==> forall i | from <= i :: MatchAt(s, i).None?
    decreases |s| - from
  {
    if from >= |s| then None
    else if MatchAt(s, from).Some? then MatchAt(s, from)
    else FirstMatch(s, from + 1)
  }

  function Matches(s: string, from: nat): (ms: seq<Match>)
    decreases |s| - from
  {
    match FirstMatch(s, from)
    case None => []
    case Some(m) => [m] + Matches(s, m.end)
  }

  /** A match contains no start of another. */
  lemma NoOverlap(s: string, i: nat, k: nat)
    requires MatchAt(s, i).Some? && i < k < MatchAt(s, i).value.end
    ensures MatchAt(s, k).None?
  {
    var a := RunEnd(IsSpace, s, i + 2);
    var b := RunEnd(IsPathChar, s, a);
    var c := RunEnd(IsSpace, s, b);
    assert !IsSpace('{') && !IsPathChar('{');
    assert s[i + 2] != '{';
  }

  /** No placeholder is skipped: the left-to-right scan finds exactly the positions where
      the pattern matches. */
  lemma {:induction false} MatchesAreAll(s: string, from: nat, m: Match)
    ensures m in Matches(s, from) <==> from <= m.start && MatchAt(s, m.start) == Some(m)
    decreases |s| - from
  {
    var first := FirstMatch(s, from);
    if first.Some? {
      MatchesAreAll(s, first.value.end, m);
      if MatchAt(s, m.start) == Some(m) && first.value.start < m.start < first.value.end {
        NoOverlap(s, first.value.start, m.start);
      }
    }
  }

  /** An exact placeholder, the whole string being one match. */
  function Exact(s: string): Option<string> {
    var m := MatchAt(s, 0);
    if m.Some? && m.value.end == |s| then Some(m.value.path) else None
  }

  lemma {:induction false} ExactIsOnlyMatch(s: string)
    requires Exact(s).Some?
    ensures Matches(s, 0) == [Match(0, |s|, Exact(s).value)]
  {
    assert Matches(s, |s|) == [];
    assert FirstMatch(s, 0) == MatchAt(s, 0);
  }

  /** A string is an exact placeholder just if the grammar says so. */
  lemma ExactIff(s: string, path: string)
    ensures Exact(s) == Some(path) <==> IsPlaceholder(s, path)
  {
    assert s[0..|s|] == s;
    MatchAtIff(s, 0, |s|, path);
  }

  // ---- Replacing ----

  datatype Replaced = Text(text: string) | Thrown

  /** The text from `from` on with every match replaced, unless a replacement throws. */
  function Splice(s: string, from: nat, ms: seq<Match>, f: string -> Option<string>): Replaced
    requires from <= |s|
    requires Chain(s, from, ms)
    decreases |ms|
  {
    if ms == [] then Text(s[from..])
    else
      match f(ms[0].path)
      case None => Thrown
      case Some(t) =>
        match Splice(s, ms[0].end, ms[1..], f)
        case Thrown => Thrown
        case Text(rest) => Text(s[from..ms[0].start] + t + rest)
  }

  function Prefixed(text: string, r: Replaced): Replaced {
    if r.Thrown? then Thrown else Text(text + r.text)
  }

  /** The whole replacement: each match is replaced once, and nothing inserted is matched. */
  function ReplaceAll(s: string, f: string -> Option<string>): Replaced {
    MatchesChain(s, 0);
    Splice(s, 0, Matches(s, 0), f)
  }

  /** Matches in order, none before `from`. */
  predicate Chain(s: string, from: nat, ms: seq<Match>)
    decreases |ms|
  {
    ms == [] ||
    (from <= ms[0].start <= ms[0].end <= |s| && Chain(s, ms[0].end, ms[1..]))
  }

  lemma {:induction false} MatchesChain(s: string, from: nat)
    requires from <= |s|
    ensures Chain(s, from, Matches(s, from))
    decreases |s| - from
  {
    var m := FirstMatch(s, from);
    if m.Some? {
      MatchesChain(s, m.value.end);
    }
  }

  /** Literals and placeholders in order: what surrounds and fills the matches. */
  function Reassemble(s: string, from: nat, ms: seq<Match>): string
    requires from <= |s| && Chain(s, from, ms)
    decreases |ms|
  {
    if ms == [] then s[from..]
    else s[from..ms[0].start] + s[ms[0].start..ms[0].end] + Reassemble(s, ms[0].end, ms[1..])
  }

  lemma {:induction false} ReassemblesBack(s: string, from: nat, ms: seq<Match>)
    requires from <= |s| && Chain(s, from, ms)
    ensures Reassemble(s, from, ms) == s[from..]
    decreases |ms|
  {
    if ms != [] {
      ReassemblesBack(s, ms[0].end, ms[1..]);
      assert s[from..] == s[from..ms[0].start] + s[ms[0].start..ms[0].end] + s[ms[0].end..];
    }
  }

  lemma {:induction false} SpliceThrowsIff(s: string, from: nat, ms: seq<Match>, f: string -> Option<string>)
    requires from <= |s| && Chain(s, from, ms)
    ensures Splice(s, from, ms, f).Thrown? <==> exists i :: 0 <= i < |ms| && f(ms[i].path).None?
    decreases |ms|
  {
    if ms != [] {
      SpliceThrowsIff(s, ms[0].end, ms[1..], f);
      if f(ms[0].path).Some? {
        if i :| 0 <= i < |ms| && f(ms[i].path).None? { assert ms[1..][i - 1] == ms[i]; }
        if i :| 0 <= i < |ms[1..]| && f(ms[1..][i].path).None? { assert ms[i + 1] == ms[1..][i]; }
      }
    }
  }

  // ---- What the replaced text is, by position ----

  ghost predicate AllReplaced(ms: seq<Match>, f: string -> Option<string>) {
    forall i | 0 <= i < |ms| :: f(ms[i].path).Some?
  }

  /** How much longer the text has become before match `k`. */
  ghost function Growth(ms: seq<Match>, f: string -> Option<string>, k: nat): int
    requires AllReplaced(ms, f) && k <= |ms|
  {
    if k == 0 then 0
    else Growth(ms, f, k - 1) + |f(ms[k - 1].path).value| - (ms[k - 1].end - ms[k - 1].start)
  }

  /** `v` stands in `r` at position `o`. */
  ghost predicate Holds(r: string, o: int, v: string) {
    0 <= o && o + |v| <= |r| && r[o..o + |v|] == v
  }

  lemma {:induction false} GrowthTail(ms: seq<Match>, f: string -> Option<string>, k: nat)
    requires AllReplaced(ms, f) && 0 < k <= |ms|
    ensures AllReplaced(ms[1..], f)
    ensures Growth(ms, f, k) ==
            |f(ms[0].path).value| - (ms[0].end - ms[0].start) + Growth(ms[1..], f, k - 1)
  {
    assert forall i | 0 <= i < |ms[1..]| :: ms[1..][i] == ms[i + 1];
    if k > 1 { GrowthTail(ms, f, k - 1); }
  }

  /** The literal before match `k`, or the one after the last. */
  function LiteralStart(from: nat, ms: seq<Match>, k: nat): nat
    requires k <= |ms|
  {
    if k == 0 then from else ms[k - 1].end
  }

  function LiteralEnd(s: string, ms: seq<Match>, k: nat): nat
    requires k <= |ms|
  {
    if k == |ms| then |s| else ms[k].start
  }

  lemma {:induction false} ChainBounds(s: string, from: nat, ms: seq<Match>, k: nat)
    requires from <= |s| && Chain(s, from, ms) && k <= |ms|
    ensures from <= LiteralStart(from, ms, k) <= LiteralEnd(s, ms, k) <= |s|
    ensures k < |ms| ==> ms[k].start <= ms[k].end <= |s|
    decreases k
  {
    if k > 0 { ChainBounds(s, ms[0].end, ms[1..], k - 1); }
  }

  lemma HoldsAfter(head: string, rest: string, o: int, v: string)
    requires Holds(rest, o, v)
    ensures Holds(head + rest, |head| + o, v)
  {
    assert (head + rest)[|head| + o..|head| + o + |v|] == rest[o..o + |v|];
  }

  lemma HoldsFirst(head: string, v: string, rest: string)
    ensures Holds(head + v + rest, 0, head) && Holds(head + v + rest, |head|, v)
  {
    assert (head + v + rest)[..|head|] == head;
    assert (head + v + rest)[|head|..|head| + |v|] == v;
  }

  lemma {:induction false} SpliceIsText(s: string, from: nat, ms: seq<Match>, f: string -> Option<string>)
    requires from <= |s| && Chain(s, from, ms) && AllReplaced(ms, f)
    ensures Splice(s, from, ms, f).Text?
    ensures |Splice(s, from, ms, f).text| == |s| - from + Growth(ms, f, |ms|)
    decreases |ms|
  {
    if ms != [] {
      assert forall i | 0 <= i < |ms[1..]| :: ms[1..][i] == ms[i + 1];
      SpliceIsText(s, ms[0].end, ms[1..], f);
      GrowthTail(ms, f, |ms|);
    }
  }

  /** Where match `k`, its value and the literal before it stand in the replaced text `r`. */
  ghost predicate StandsAt(s: string, from: nat, ms: seq<Match>, f: string -> Option<string>, k: nat, r: string)
    requires AllReplaced(ms, f) && k <= |ms|
  {
    var a, b := LiteralStart(from, ms, k), LiteralEnd(s, ms, k);
    && from <= a <= b <= |s| && Holds(r, a - from + Growth(ms, f, k), s[a..b])
    && (k < |ms| ==> Holds(r, ms[k].start - from + Growth(ms, f, k), f(ms[k].path).value))
  }

  /** What stands in the rest of the text stands in the whole, behind the first match. */
  lemma StandsBehind(s: string, from: nat, ms: seq<Match>, f: string -> Option<string>, k: nat, rest: string)
    requires from <= |s| && Chain(s, from, ms) && AllReplaced(ms, f) && 0 < k <= |ms|
    requires AllReplaced(ms[1..], f) && StandsAt(s, ms[0].end, ms[1..], f, k - 1, rest)
    ensures StandsAt(s, from, ms, f, k, s[from..ms[0].start] + f(ms[0].path).value + rest)
  {
    var head, tail := s[from..ms[0].start] + f(ms[0].path).value, ms[1..];
    var a, b, g := LiteralStart(from, ms, k), LiteralEnd(s, ms, k), Growth(tail, f, k - 1);
    ChainBounds(s, from, ms, k);
    GrowthTail(ms, f, k);
    assert LiteralStart(ms[0].end, tail, k - 1) == a && LiteralEnd(s, tail, k - 1) == b;
    HoldsAfter(head, rest, a - ms[0].end + g, s[a..b]);
    if k < |ms| {
      var v := f(ms[k].path).value;
      assert tail[k - 1] == ms[k];
      HoldsAfter(head, rest, ms[k].start - ms[0].end + g, v);
    }
  }

  lemma StandsFirst(s: string, from: nat, ms: seq<Match>, f: string -> Option<string>, rest: string)
    requires from <= |s| && Chain(s, from, ms) && AllReplaced(ms, f) && ms != []
    ensures StandsAt(s, from, ms, f, 0, s[from..ms[0].start] + f(ms[0].path).value + rest)
  {
    HoldsFirst(s[from..ms[0].start], f(ms[0].path).value, rest);
  }

  lemma SpliceHead(s: string, from: nat, ms: seq<Match>, f: string -> Option<string>) returns (rest: string)
    requires from <= |s| && Chain(s, from, ms) && AllReplaced(ms, f) && ms != []
    ensures AllReplaced(ms[1..], f) && Splice(s, ms[0].end, ms[1..], f) == Text(rest)
    ensures Splice(s, from, ms, f) == Text(s[from..ms[0].start] + f(ms[0].path).value + rest)
  {
    assert forall i | 0 <= i < |ms[1..]| :: ms[1..][i] == ms[i + 1];
    SpliceIsText(s, ms[0].end, ms[1..], f);
    rest := Splice(s, ms[0].end, ms[1..], f).text;
  }

  lemma {:induction false} SpliceStands(
    s: string, from: nat, ms: seq<Match>, f: string -> Option<string>, k: nat, r: string)
    requires from <= |s| && Chain(s, from, ms) && AllReplaced(ms, f) && k <= |ms|
    requires Splice(s, from, ms, f) == Text(r)
    ensures StandsAt(s, from, ms, f, k, r)
    decreases k
  {
    if ms == [] {
      assert s[from..|s|] == s[from..];
    } else {
      var rest := SpliceHead(s, from, ms, f);
      if k == 0 {
        StandsFirst(s, from, ms, f, rest);
      } else {
        var end, tail, j := ms[0].end, ms[1..], k - 1;
        SpliceStands(s, end, tail, f, j, rest);
        StandsBehind(s, from, ms, f, k, rest);
      }
    }
  }

  /** The whole text of a replacement that does not throw: every literal, and the value of every
      match's own path, stand where the values before them have moved them. */
  lemma SpliceAt(s: string, from: nat, ms: seq<Match>, f: string -> Option<string>, k: nat)
    requires from <= |s| && Chain(s, from, ms) && AllReplaced(ms, f) && k <= |ms|
    ensures var r := Splice(s, from, ms, f);
      r.Text? && |r.text| == |s| - from + Growth(ms, f, |ms|) && StandsAt(s, from, ms, f, k, r.text)
  {
    SpliceIsText(s, from, ms, f);
    SpliceStands(s, from, ms, f, k, Splice(s, from, ms, f).text);
  }

  // ---- The stateful object ----

  /** A global regular expression: `exec` resumes at `lastIndex` and resets it on failure. */
  class GlobalRegExp {
    var lastIndex: nat

    constructor ()
      ensures lastIndex == 0
    {
      lastIndex := 0;
    }

    method Exec(s: string) returns (m: Option<Match>)
      modifies this
      ensures m == FirstMatch(s, old(lastIndex))
      ensures lastIndex == if m.Some? then m.value.end else 0
    {
      var i := lastIndex;
      while i < |s|
        invariant old(lastIndex) <= i && lastIndex == old(lastIndex)
        invariant FirstMatch(s, old(lastIndex)) == FirstMatch(s, i)
      {
        m := MatchAt(s, i);
        if m.Some? {
          lastIndex := m.value.end;
          return;
        }
        i := i + 1;
      }
      lastIndex := 0;
      m := None;
    }

    method Test(s: string) returns (found: bool)
      modifies this
      ensures found <==> FirstMatch(s, old(lastIndex)).Some?
      ensures lastIndex == if found then FirstMatch(s, old(lastIndex)).value.end else 0
    {
      var m := Exec(s);
      found := m.Some?;
    }

    /** The first half of `replace`: every match is collected, which resets `lastIndex`. */
    method CollectMatches(s: string) returns (results: seq<Match>)
      modifies this
      ensures results == Matches(s, 0) && lastIndex == 0
    {
      lastIndex := 0;
      results := [];
      var m := Exec(s);
      while m.Some?
        invariant m.None? ==> lastIndex == 0 && Matches(s, 0) == results
        invariant m.Some? ==> lastIndex == m.value.end <= |s|
        invariant m.Some? ==> Matches(s, 0) == results + [m.value] + Matches(s, m.value.end)
        decreases if m.Some? then 1 + |s| - m.value.end else 0
      {
        results := results + [m.value];
        m := Exec(s);
      }
    }

    /** `replace`: only after all matches are collected are the replacements computed, so
        that one that throws leaves `lastIndex` at zero. */
    method Replace(s: string, f: string -> Option<string>) returns (r: Replaced)
      modifies this
      ensures r == ReplaceAll(s, f)
      ensures lastIndex == 0
    {
      var results := CollectMatches(s);
      MatchesChain(s, 0);
      r := Assemble(s, results, f);
    }

    static method Assemble(s: string, results: seq<Match>, f: string -> Option<string>) returns (r: Replaced)
      requires Chain(s, 0, results)
      ensures r == Splice(s, 0, results, f)
    {
      var text: string, next: nat, k: nat := "", 0, 0;
      assert results[0..] == results;
      while k < |results|
        invariant k <= |results| && next <= |s| && Chain(s, next, results[k..])
        invariant Splice(s, 0, results, f) == Prefixed(text, Splice(s, next, results[k..], f))
      {
        var m := results[k];
        assert results[k..][0] == m && results[k..][1..] == results[k + 1..];
        var replacement := f(m.path);
        if replacement.None? { return Thrown; }
        var piece := s[next..m.start] + replacement.value;
        ghost var rest := Splice(s, m.end, results[k + 1..], f);
        if rest.Text? { assert text + (piece + rest.text) == (text + piece) + rest.text; }
        text := text + piece;
        next := m.end;
        k := k + 1;
      }
      assert results[k..] == [];
      return Text(text + s[next..]);
    }
  }
}
