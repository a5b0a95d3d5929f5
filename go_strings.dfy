/**
 * The parts of Go's `strings` package that the mapping-file parser uses:
 * `TrimSpace`, `HasPrefix`, `Index`, `Split` and `Join`.
 *
 * A Go string is a byte sequence; here a string is a sequence of code points.
 * The only characters the parser looks for ('=', '#', '/') are ASCII, so the
 * places where a string is cut are the same in both views.
 */
module GoStrings {

  /** Go's `unicode.IsSpace`: the Latin-1 spaces and Unicode's White_Space property. */
  predicate IsSpace(c: char)
    ensures IsSpace(c) ==> c != '=' && c != '#' && c != '/'
  {
    c == '\t' || c == '\n' || c == '\U{B}' || c == '\U{C}' || c == '\r' || c == ' '
    || c == '\U{85}' || c == '\U{A0}' || c == '\U{1680}'
    || ('\U{2000}' <= c <= '\U{200A}')
    || c == '\U{2028}' || c == '\U{2029}' || c == '\U{202F}' || c == '\U{205F}' || c == '\U{3000}'
  }

  predicate AllSpace(s: string) {
    forall i :: 0 <= i < |s| ==> IsSpace(s[i])
  }

  /** Removes the leading white space: what is left is empty or starts with a non-space. */
  function TrimLeftSpace(s: string): (r: string)
    ensures |r| <= |s|
    ensures r == [] || !IsSpace(r[0])
  {
    if s != [] && IsSpace(s[0]) then TrimLeftSpace(s[1..]) else s
  }

  /** Removes the trailing white space: what is left is empty or ends with a non-space. */
  function TrimRightSpace(s: string): (r: string)
    ensures |r| <= |s|
    ensures r == [] || !IsSpace(r[|r| - 1])
  {
    if s != [] && IsSpace(s[|s| - 1]) then TrimRightSpace(s[..|s| - 1]) else s
  }

  /** Go's `strings.TrimSpace`: leading and trailing white space removed. */
  function TrimSpace(s: string): (r: string)
    ensures r == [] || (!IsSpace(r[0]) && !IsSpace(r[|r| - 1]))
  {
    var l := TrimLeftSpace(s);
    TrimRightSpaceIsPrefix(l);
    TrimRightSpace(l)
  }

  /** The leading trim keeps a suffix and drops only white space. */
  lemma {:induction false} TrimLeftSpaceIsSuffix(s: string)
    ensures var r := TrimLeftSpace(s);
            r == s[|s| - |r|..] && AllSpace(s[..|s| - |r|])
  {
    if s != [] && IsSpace(s[0]) {
      TrimLeftSpaceIsSuffix(s[1..]);
      var r := TrimLeftSpace(s);
      assert s[1..][|s| - 1 - |r|..] == s[|s| - |r|..];
      assert s[..|s| - |r|] == [s[0]] + s[1..][..|s| - 1 - |r|];
    }
  }

  /** The trailing trim keeps a prefix and drops only white space. */
  lemma {:induction false} TrimRightSpaceIsPrefix(s: string)
    ensures var r := TrimRightSpace(s);
            r == s[..|r|] && AllSpace(s[|r|..])
  {
    if s != [] && IsSpace(s[|s| - 1]) {
      var init := s[..|s| - 1];
      TrimRightSpaceIsPrefix(init);
      var r := TrimRightSpace(s);
      assert init[..|r|] == s[..|r|];
      assert s[|r|..] == init[|r|..] + [s[|s| - 1]];
    }
  }

  /** What `TrimSpace` keeps is a slice of the input with only white space around it. */
  lemma TrimSpaceIsSlice(s: string)
    ensures exists i, j :: 0 <= i <= j <= |s| && TrimSpace(s) == s[i..j] && AllSpace(s[..i]) && AllSpace(s[j..])
  {
    var l := TrimLeftSpace(s);
    var r := TrimRightSpace(l);
    TrimLeftSpaceIsSuffix(s);
    TrimRightSpaceIsPrefix(l);
    var i := |s| - |l|;
    var j := i + |r|;
    assert r == s[i..j];
    assert s[j..] == l[|r|..];
    assert AllSpace(s[..i]) && AllSpace(s[j..]);
  }

  /** Go's `strings.HasPrefix`. */
  predicate HasPrefix(s: string, prefix: string)
    ensures HasPrefix(s, prefix) <==> |prefix| <= |s| && forall i :: 0 <= i < |prefix| ==> s[i] == prefix[i]
  {
    |prefix| <= |s| && s[..|prefix|] == prefix
  }

  /** Go's `strings.Index` for a one-character separator: the first position of `c`, or -1. */
  function Index(s: string, c: char): (r: int)
    ensures -1 <= r < |s|
    ensures r == -1 <==> c !in s
    ensures r >= 0 ==> s[r] == c && c !in s[..r]
  {
    if s == [] then -1
    else if s[0] == c then 0
    else
      var k := Index(s[1..], c);
      assert s[1..] == s[..|s|][1..];
      if k < 0 then -1 else (assert s[..k + 1] == [s[0]] + s[1..][..k]; k + 1)
  }

  /**
   * Go's `strings.Split(s, sep)` for a one-character separator: the text
   * between the separators, cut at the first separator and then split again
   * on the rest, as Go's `genSplit` does.
   */
  function Split(s: string, sep: char): (parts: seq<string>)
    ensures |parts| >= 1
    ensures forall i :: 0 <= i < |parts| ==> sep !in parts[i]
    decreases |s|
  {
    var m := Index(s, sep);
    if m < 0 then [s] else [s[..m]] + Split(s[m + 1..], sep)
  }

  /** Go's `strings.Join`: no element gives "", one gives itself, more are glued with `sep`. */
  function Join(elems: seq<string>, sep: string): (r: string)
    ensures |elems| == 0 ==> r == ""
    ensures |elems| >= 1 ==> HasPrefix(r, elems[0])
  {
    if |elems| == 0 then ""
    else if |elems| == 1 then elems[0]
    else elems[0] + sep + Join(elems[1..], sep)
  }

  /** Joining the pieces of a split on the same separator gives back the string. */
  lemma {:induction false} SplitThenJoin(s: string, sep: char)
    ensures Join(Split(s, sep), [sep]) == s
    decreases |s|
  {
    var m := Index(s, sep);
    if m >= 0 {
      var rest := s[m + 1..];
      var tail := Split(rest, sep);
      assert Split(s, sep) == [s[..m]] + tail;
      SplitThenJoin(rest, sep);
      JoinCons(s[..m], tail, [sep]);
      assert Join([s[..m]] + tail, [sep]) == s[..m] + [sep] + rest;
      CutAt(s, m);
    }
  }

  /** `Join` of two or more pieces puts the separator after the first. */
  lemma JoinCons(head: string, tail: seq<string>, sep: string)
    requires |tail| >= 1
    ensures Join([head] + tail, sep) == head + sep + Join(tail, sep)
  {
    assert ([head] + tail)[1..] == tail;
  }

  /** A string is its text before position m, the character at m, and its text after m. */
  lemma CutAt(s: string, m: nat)
    requires m < |s|
    ensures s == s[..m] + [s[m]] + s[m + 1..]
  {
  }

  /** Splitting a join of separator-free pieces gives back the pieces. */
  lemma {:induction false} JoinThenSplit(parts: seq<string>, sep: char)
    requires |parts| >= 1
    requires forall i :: 0 <= i < |parts| ==> sep !in parts[i]
    ensures Split(Join(parts, [sep]), sep) == parts
  {
    var s := Join(parts, [sep]);
    if |parts| == 1 {
      assert Index(s, sep) == -1;
    } else {
      var tail := Join(parts[1..], [sep]);
      assert s == parts[0] + [sep] + tail;
      IndexAfterFreePrefix(parts[0], sep, tail);
      assert s[..|parts[0]|] == parts[0];
      assert s[|parts[0]| + 1..] == tail;
      JoinThenSplit(parts[1..], sep);
    }
  }

  /** The first separator in `p + [c] + t` is the one just after `p` when `p` has none. */
  lemma {:induction false} IndexAfterFreePrefix(p: string, c: char, t: string)
    requires c !in p
    ensures Index(p + [c] + t, c) == |p|
  {
    var s := p + [c] + t;
    assert s[|p|] == c;
  }

  /** A string is split into one more piece than it has separators. */
  lemma {:induction false} SplitCount(s: string, sep: char)
    ensures |Split(s, sep)| == multiset(s)[sep] + 1
    decreases |s|
  {
    var m := Index(s, sep);
    if m < 0 {
      assert sep !in multiset(s);
    } else {
      var head, rest := s[..m], s[m + 1..];
      assert Split(s, sep) == [head] + Split(rest, sep);
      SplitCount(rest, sep);
      CutAt(s, m);
      assert multiset(s) == multiset(head) + multiset{sep} + multiset(rest);
      assert multiset(head)[sep] == 0;
    }
  }

  /**
   * The pieces after the first are, joined again on the separator, exactly
   * the text after the first separator, or "" when there is no separator.
   */
  lemma {:induction false} JoinTailIsSuffix(s: string, sep: char)
    ensures var m := Index(s, sep);
            Join(Split(s, sep)[1..], [sep]) == if m < 0 then "" else s[m + 1..]
  {
    var m := Index(s, sep);
    if m >= 0 {
      var rest := s[m + 1..];
      var tail := Split(rest, sep);
      assert Split(s, sep) == [s[..m]] + tail;
      assert ([s[..m]] + tail)[1..] == tail;
      SplitThenJoin(rest, sep);
    }
  }
}
