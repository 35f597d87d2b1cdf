/** What the models share about sequences and strings. */
module Sequences {
  function Last<T>(s: seq<T>): T
    requires s != []
  {
    s[|s| - 1]
  }

  function Earlier<T>(s: seq<T>): (r: seq<T>)
    requires s != []
    ensures |r| < |s|
  {
    s[..|s| - 1]
  }

  ghost predicate NoDuplicates<T>(s: seq<T>) {
    forall i, j | 0 <= i < j < |s| :: s[i] != s[j]
  }

  /** JavaScript's `split` by one character. */
  function Split(s: string, separator: char): (parts: seq<string>)
    ensures |parts| >= 1
    ensures forall i | 0 <= i < |parts| :: separator !in parts[i]
  {
    if s == "" then [""]
    else
      var rest := Split(s[1..], separator);
      if s[0] == separator then [""] + rest else [[s[0]] + rest[0]] + rest[1..]
  }

  lemma PrefixCancels(p: string, s: string, t: string)
    ensures p + s <= p + t <==> s <= t
  {
    assert (p + s)[|p|..] == s && (p + t)[|p|..] == t;
    if p + s <= p + t {
      assert p + t == (p + s) + (p + t)[|p + s|..];
      assert t == s + (p + t)[|p + s|..];
    }
    if s <= t { assert p + t == (p + s) + t[|s|..]; }
  }

  function JoinWith(parts: seq<string>, separator: char): string {
    if parts == [] then ""
    else if |parts| == 1 then parts[0]
    else parts[0] + [separator] + JoinWith(parts[1..], separator)
  }

  /** Splitting loses nothing: with no separator inside a part, this fixes the parts. */
  lemma {:induction false} SplitJoins(s: string, separator: char)
    ensures JoinWith(Split(s, separator), separator) == s
  {
    if s != "" {
      var rest := Split(s[1..], separator);
      SplitJoins(s[1..], separator);
      if s[0] == separator {
        assert ([""] + rest)[1..] == rest;
        assert s == [s[0]] + s[1..];
      } else {
        var parts := [[s[0]] + rest[0]] + rest[1..];
        assert parts[1..] == rest[1..];
        if |rest| > 1 {
          assert s[1..] == rest[0] + [separator] + JoinWith(rest[1..], separator);
        }
        assert JoinWith(parts, separator) == [s[0]] + JoinWith(rest, separator);
        assert s == [s[0]] + s[1..];
      }
    }
  }

  /** One more character in front of the parts of a string. */
  function Attach(c: char, parts: seq<string>, separator: char): seq<string>
    requires parts != []
  {
    if c == separator then [""] + parts else [[c] + parts[0]] + parts[1..]
  }

  lemma AttachAppend(c: char, parts: seq<string>, more: seq<string>, separator: char)
    requires parts != []
    ensures Attach(c, parts + more, separator) == Attach(c, parts, separator) + more
  {
    assert (parts + more)[0] == parts[0] && (parts + more)[1..] == parts[1..] + more;
  }

  lemma SplitAttach(c: char, s: string, separator: char)
    ensures Split([c] + s, separator) == Attach(c, Split(s, separator), separator)
  {
    assert ([c] + s)[1..] == s;
  }

  lemma {:induction false} SplitAppend(a: string, b: string, separator: char)
    ensures Split(a + [separator] + b, separator) == Split(a, separator) + Split(b, separator)
  {
    if a == "" {
      SplitAttach(separator, b, separator);
      assert a + [separator] + b == [separator] + b;
    } else {
      var c, tail := a[0], a[1..];
      var joined, parts, more := tail + [separator] + b, Split(tail, separator), Split(b, separator);
      SplitAppend(tail, b, separator);
      SplitAttach(c, joined, separator);
      SplitAttach(c, tail, separator);
      assert a == [c] + tail && a + [separator] + b == [c] + joined;
      AttachAppend(c, parts, more, separator);
    }
  }

  lemma {:induction false} SplitWhole(s: string, separator: char)
    requires separator !in s
    ensures Split(s, separator) == [s]
  {
    if s != "" {
      SplitWhole(s[1..], separator);
      assert s == [s[0]] + s[1..];
    }
  }
}
