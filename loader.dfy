/**
 * The mapping-file loader `entries` of main.go: every line that is not a
 * comment becomes an entry whose id is the text before the first '=' and
 * whose url is everything after it.
 *
 * Opening the file and cutting it into lines are I/O; the model receives
 * their outcome as a `FileInput`.
 */
module Loader {
  import opened Wrappers
  import opened GoStrings

  /** One mapping: a path segment and the target it redirects to. */
  datatype Entry = Entry(id: string, url: string)

  /** An error reported by the operating system or the line scanner. */
  datatype IoError = IoError(reason: string)

  /**
   * What reading the mapping file yields: either the open failed, or the
   * lines the scanner delivered, followed by the scanner's error if it
   * stopped on one.
   */
  datatype FileInput =
    | OpenFailed(openError: IoError)
    | Opened(lines: seq<string>, scanError: Option<IoError>)

  /** A line is a comment when its trimmed text starts with "#" or "//". */
  predicate IsComment(line: string)
    ensures IsComment(line) ==> TrimSpace(line) != []
  {
    var content := TrimSpace(line);
    HasPrefix(content, "#") || HasPrefix(content, "//")
  }

  /** The entry for a (non-comment) line: split the raw line on every '=', keep the first piece as id, rejoin the others as url. */
  function ParseLine(line: string): (e: Entry)
    ensures '=' !in e.id
  {
    var parts := Split(line, '=');
    Entry(parts[0], Join(parts[1..], "="))
  }

  /** The line `id=url` that a mapping file holds for an entry. */
  function Format(e: Entry): string {
    e.id + "=" + e.url
  }

  /** The entries of the lines, in order, comment lines left out. */
  function ParseLines(lines: seq<string>): (entries: seq<Entry>)
    ensures |entries| <= |lines|
  {
    if lines == [] then []
    else (if IsComment(lines[0]) then [] else [ParseLine(lines[0])]) + ParseLines(lines[1..])
  }

  /** The number of lines that are not comments. */
  function NonCommentCount(lines: seq<string>): nat {
    if lines == [] then 0
    else (if IsComment(lines[0]) then 0 else 1) + NonCommentCount(lines[1..])
  }

  /** The outcome of `entries`: an open or scan error is returned as is, and nothing parsed is kept then. */
  function Load(input: FileInput): (r: Result<seq<Entry>, IoError>)
    ensures r.Success? <==> input.Opened? && input.scanError.None?
    ensures r.Success? ==> r.value == ParseLines(input.lines)
    ensures input.OpenFailed? ==> r == Failure(input.openError)
    ensures input.Opened? && input.scanError.Some? ==> r == Failure(input.scanError.value)
  {
    match input
    case OpenFailed(err) => Failure(err)
    case Opened(lines, None) => Success(ParseLines(lines))
    case Opened(_, Some(err)) => Failure(err)
  }

  /** The loop of `entries`: scan the lines one by one and append an entry for each non-comment line. */
  method Entries(input: FileInput) returns (r: Result<seq<Entry>, IoError>)
    ensures r == Load(input)
  {
    if input.OpenFailed? {
      return Failure(input.openError);
    }
    var lines := input.lines;
    var entries: seq<Entry> := [];
    var i := 0;
    assert lines[..i] == [];
    while i < |lines|
      invariant 0 <= i <= |lines|
      invariant entries == ParseLines(lines[..i])
    {
      var line := lines[i];
      ParseLinesAppend(lines[..i], [line]);
      assert lines[..i + 1] == lines[..i] + [line];
      ParseLinesOfOne(line);
      var content := TrimSpace(line);
      if !(HasPrefix(content, "#") || HasPrefix(content, "//")) {
        var parts := Split(line, '=');
        var id := parts[0];
        var url := Join(parts[1..], "=");
        assert Entry(id, url) == ParseLine(line);
        entries := entries + [Entry(id, url)];
      } else {
        assert IsComment(line);
      }
      i := i + 1;
    }
    assert lines[..i] == lines;
    if input.scanError.Some? {
      return Failure(input.scanError.value);
    }
    return Success(entries);
  }

  // ---------------------------------------------------------------------
  // One line

  /** The id is the raw line up to the first '=', the url the raw line after it; without '=' the id is the whole line and the url is empty. */
  lemma ParseLineFields(line: string)
    ensures var e := ParseLine(line);
            var m := Index(line, '=');
            if m < 0 then e.id == line && e.url == ""
            else e.id == line[..m] && e.url == line[m + 1..]
  {
    JoinTailIsSuffix(line, '=');
  }

  /** A line holding '=' is rebuilt from its entry: everything after the first '=', further '=' included, is the url. */
  lemma ParseLineRebuildsLine(line: string)
    requires '=' in line
    ensures Format(ParseLine(line)) == line
  {
    ParseLineFields(line);
    var m := Index(line, '=');
    assert line == line[..m] + "=" + line[m + 1..];
  }

  /** A line without '=' gives the whole line as id and an empty url. */
  lemma ParseLineWithoutSeparator(line: string)
    requires '=' !in line
    ensures ParseLine(line) == Entry(line, "")
  {
    ParseLineFields(line);
  }

  /** Parsing the line written for an entry gives the entry back when its id holds no '='. */
  lemma ParseFormattedLine(e: Entry)
    requires '=' !in e.id
    ensures ParseLine(Format(e)) == e
  {
    var line := Format(e);
    IndexAfterFreePrefix(e.id, '=', e.url);
    ParseLineFields(line);
    assert line[..|e.id|] == e.id;
    assert line[|e.id| + 1..] == e.url;
  }

  // ---------------------------------------------------------------------
  // Comment detection

  /** A trailing trim keeps a prefix that ends with a non-space character. */
  lemma TrimRightKeepsPrefix(s: string, p: string)
    requires p != [] && !IsSpace(p[|p| - 1])
    ensures HasPrefix(TrimRightSpace(s), p) <==> HasPrefix(s, p)
  {
    TrimRightSpaceIsPrefix(s);
  }

  /** The leading white space ends exactly at the first non-space character. */
  lemma {:induction false} LeadingSpaceEnds(s: string, k: nat)
    requires k < |s| && AllSpace(s[..k]) && !IsSpace(s[k])
    ensures TrimLeftSpace(s) == s[k..]
  {
    if k > 0 {
      assert IsSpace(s[..k][0]);
      assert s[1..][..k - 1] == s[..k][1..];
      LeadingSpaceEnds(s[1..], k - 1);
      assert s[1..][k - 1..] == s[k..];
    }
  }

  /**
   * A line is a comment exactly when, after some leading white space, it
   * continues with "#" or "//".
   */
  lemma CommentAfterLeadingSpace(line: string)
    ensures IsComment(line) <==>
            exists k :: 0 <= k <= |line| && AllSpace(line[..k]) &&
                        (HasPrefix(line[k..], "#") || HasPrefix(line[k..], "//"))
  {
    var l := TrimLeftSpace(line);
    var k0 := |line| - |l|;
    TrimLeftSpaceIsSuffix(line);
    TrimRightKeepsPrefix(l, "#");
    TrimRightKeepsPrefix(l, "//");
    assert IsComment(line) <==> HasPrefix(l, "#") || HasPrefix(l, "//");
    if IsComment(line) {
      assert line[k0..] == l;
    }
    forall k | 0 <= k <= |line| && AllSpace(line[..k]) &&
               (HasPrefix(line[k..], "#") || HasPrefix(line[k..], "//"))
      ensures IsComment(line)
    {
      assert line[k..][0] == line[k];
      LeadingSpaceEnds(line, k);
    }
  }

  // ---------------------------------------------------------------------
  // The whole file

  /** A single line gives nothing when it is a comment and its parsed entry otherwise. */
  lemma ParseLinesOfOne(line: string)
    ensures ParseLines([line]) == if IsComment(line) then [] else [ParseLine(line)]
  {
    assert [line][1..] == [];
  }

  /** Parsing is done line by line: the entries of two pieces of a file are those of each, in order. */
  lemma {:induction false} ParseLinesAppend(a: seq<string>, b: seq<string>)
    ensures ParseLines(a + b) == ParseLines(a) + ParseLines(b)
  {
    if a != [] {
      var first := if IsComment(a[0]) then [] else [ParseLine(a[0])];
      assert (a + b)[0] == a[0];
      assert (a + b)[1..] == a[1..] + b;
      assert ParseLines(a + b) == first + ParseLines(a[1..] + b);
      ParseLinesAppend(a[1..], b);
    } else {
      assert a + b == b;
    }
  }

  /** There is one entry per non-comment line, so never more entries than lines. */
  lemma {:induction false} ParseLinesLength(lines: seq<string>)
    ensures |ParseLines(lines)| == NonCommentCount(lines) <= |lines|
  {
    if lines != [] {
      ParseLinesLength(lines[1..]);
    }
  }

  /** The entry of non-comment line i stands at the position given by the number of non-comment lines before it. */
  lemma ParseLinesPosition(lines: seq<string>, i: nat)
    requires i < |lines| && !IsComment(lines[i])
    ensures NonCommentCount(lines[..i]) < |ParseLines(lines)|
    ensures ParseLines(lines)[NonCommentCount(lines[..i])] == ParseLine(lines[i])
  {
    assert lines == lines[..i] + [lines[i]] + lines[i + 1..];
    ParseLinesAppend(lines[..i] + [lines[i]], lines[i + 1..]);
    ParseLinesAppend(lines[..i], [lines[i]]);
    ParseLinesLength(lines[..i]);
  }

  /** Every entry comes from a non-comment line, the one that many non-comment lines into the file. */
  lemma {:induction false} ParseLinesSource(lines: seq<string>, k: nat)
    requires k < |ParseLines(lines)|
    ensures exists i :: 0 <= i < |lines| && !IsComment(lines[i]) &&
                        NonCommentCount(lines[..i]) == k && ParseLines(lines)[k] == ParseLine(lines[i])
  {
    assert lines != [];
    var n := if IsComment(lines[0]) then 0 else 1;
    var tail := lines[1..];
    var head := if IsComment(lines[0]) then [] else [ParseLine(lines[0])];
    assert ParseLines(lines) == head + ParseLines(tail);
    if k < n {
      assert lines[..0] == [];
    } else {
      assert ParseLines(lines)[k] == ParseLines(tail)[k - n];
      ParseLinesSource(tail, k - n);
      var i :| 0 <= i < |tail| && !IsComment(tail[i]) &&
               NonCommentCount(tail[..i]) == k - n &&
               ParseLines(tail)[k - n] == ParseLine(tail[i]);
      CountPastFirstLine(lines, i);
      assert lines[i + 1] == tail[i];
    }
  }

  /** The count of the first i + 1 lines is that of the first line plus that of the i lines after it. */
  lemma CountPastFirstLine(lines: seq<string>, i: nat)
    requires i < |lines|
    ensures NonCommentCount(lines[..i + 1]) == (if IsComment(lines[0]) then 0 else 1) + NonCommentCount(lines[1..][..i])
  {
    var before := lines[..i + 1];
    assert before[0] == lines[0] && before[1..] == lines[1..][..i];
  }

  /** Counting is done line by line, like parsing. */
  lemma {:induction false} NonCommentCountAppend(a: seq<string>, b: seq<string>)
    ensures NonCommentCount(a + b) == NonCommentCount(a) + NonCommentCount(b)
  {
    if a == [] {
      assert a + b == b;
    } else {
      assert (a + b)[0] == a[0];
      assert (a + b)[1..] == a[1..] + b;
      NonCommentCountAppend(a[1..], b);
    }
  }

  /** Entries keep the order of their lines: a later non-comment line gets a later position. */
  lemma ParseLinesKeepsOrder(lines: seq<string>, i: nat, j: nat)
    requires i < j < |lines| && !IsComment(lines[i]) && !IsComment(lines[j])
    ensures NonCommentCount(lines[..i]) < NonCommentCount(lines[..j])
  {
    assert lines[..j] == lines[..i] + [lines[i]] + lines[i + 1..j];
    NonCommentCountAppend(lines[..i] + [lines[i]], lines[i + 1..j]);
    NonCommentCountAppend(lines[..i], [lines[i]]);
  }

  /** A comment line contributes nothing, wherever it stands. */
  lemma CommentLineVanishes(before: seq<string>, comment: string, after: seq<string>)
    requires IsComment(comment)
    ensures ParseLines(before + [comment] + after) == ParseLines(before + after)
  {
    ParseLinesAppend(before + [comment], after);
    ParseLinesAppend(before, [comment]);
    ParseLinesAppend(before, after);
  }

  // ---------------------------------------------------------------------
  // Lines of a mapping file

  /** A target holding query parameters keeps every '=' after the first. */
  lemma QueryStringTarget()
    ensures ParseLine("a=http://x?x=1&y=2") == Entry("a", "http://x?x=1&y=2")
  {
    var e := Entry("a", "http://x?x=1&y=2");
    assert Format(e) == "a=http://x?x=1&y=2";
    ParseFormattedLine(e);
  }

  /** White space around the parts is not trimmed away: it belongs to the id and the url. */
  lemma SurroundingSpaceKept(lead: string, id: string, url: string, trail: string)
    requires AllSpace(lead) && AllSpace(trail) && '=' !in id
    ensures ParseLine(lead + id + "=" + url + trail) == Entry(lead + id, url + trail)
  {
    var e := Entry(lead + id, url + trail);
    assert Format(e) == lead + id + "=" + url + trail;
    ParseFormattedLine(e);
  }

  /** A line of white space only is not skipped: it gives an entry with the whole line as id and an empty url. */
  lemma BlankLineGivesEntry(line: string)
    requires AllSpace(line)
    ensures ParseLines([line]) == [Entry(line, "")]
  {
    TrimLeftSpaceIsSuffix(line);
    assert !IsComment(line);
    ParseLineWithoutSeparator(line);
    ParseLinesOfOne(line);
  }
}
